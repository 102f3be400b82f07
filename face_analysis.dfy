/**
 * `analyze_face` (app/main.py:89-128) once the detector and the two
 * classifiers are given: the detected face boxes, and the gender and age
 * score vectors computed for the first box, are parameters.
 */
module FaceAnalysis {
  import opened Optional
  import Decimal
  import Colors
  import Classifier
  import opened Regions

  /** A detected face: top-left corner `(x, y)`, width `w`, height `h`. */
  datatype FaceBox = FaceBox(x: nat, y: nat, w: nat, h: nat)

  /** The tuple `analyze_face` returns, which `create_profile` copies into a Profile. */
  datatype Profile = Profile(
    description: string,
    age: Option<string>,
    gender: Option<string>,
    skinTone: Option<string>,
    hairColor: Option<string>)

  /** A rectangular sampling region: row bounds and column bounds. */
  datatype Window = Window(rows: Span, cols: Span)

  const NoFaceText: string := "No face detected."

  /** The characters the source writes between width and height of the box. */
  const SizeSeparator: string := "\U{00C3}\U{2014}"

  /** What the detector guarantees of a box it reports: non-empty and inside the image. */
  predicate BoxInside(img: Image, box: FaceBox)
    ensures BoxInside(img, box) ==> box.x < img.width && box.y < Height(img)
  {
    box.w >= 1 && box.h >= 1 && box.x + box.w <= img.width && box.y + box.h <= Height(img)
  }

  /**
   * The skin sample, relative to the face crop: rows `[max(0,h//2-20), min(h,h//2+20))`
   * and the same on columns with `w`.
   */
  function SkinWindow(box: FaceBox): (win: Window)
    ensures win.rows.lo <= win.rows.hi <= box.h && win.rows.hi - win.rows.lo <= 40
    ensures win.cols.lo <= win.cols.hi <= box.w && win.cols.hi - win.cols.lo <= 40
    ensures box.h >= 1 ==> win.rows.lo <= box.h / 2 < win.rows.hi
    ensures box.w >= 1 ==> win.cols.lo <= box.w / 2 < win.cols.hi
    ensures box.h >= 40 ==> win.rows.hi - win.rows.lo == 40
    ensures box.w >= 40 ==> win.cols.hi - win.cols.lo == 40
  {
    var cx, cy := box.w / 2, box.h / 2;
    Window(Span(Max(0, cy - 20), Min(box.h, cy + 20)), Span(Max(0, cx - 20), Min(box.w, cx + 20)))
  }

  /**
   * The hair sample, in image coordinates: up to 30 rows directly above the
   * box, over the middle half of its columns.
   */
  function HairBand(box: FaceBox): (win: Window)
    ensures win.rows.lo <= win.rows.hi == box.y && win.rows.hi - win.rows.lo <= 30
    ensures box.y >= 30 ==> win.rows.hi - win.rows.lo == 30
    ensures box.x <= win.cols.lo <= win.cols.hi <= box.x + box.w
    ensures win.rows.lo < win.rows.hi <==> box.y > 0
    ensures win.cols.lo < win.cols.hi <==> box.w >= 2
  {
    Window(Span(Max(0, box.y - 30), box.y), Span(box.x + box.w / 4, box.x + 3 * box.w / 4))
  }

  /** `img_np[y:y+h, x:x+w]`. */
  function FaceCrop(img: Image, box: FaceBox): (face: Image)
    requires WellFormed(img) && BoxInside(img, box)
    ensures WellFormed(face) && Height(face) == box.h && face.width == box.w
    ensures forall i, j :: 0 <= i < box.h && 0 <= j < box.w ==>
      face.rows[i][j] == img.rows[box.y + i][box.x + j]
  {
    Crop(img, Span(box.y, box.y + box.h), Span(box.x, box.x + box.w))
  }

  /** The pixels of the skin sample: never empty for a box the detector reports. */
  function SkinPatch(img: Image, box: FaceBox): (ps: seq<Pixel>)
    requires WellFormed(img) && BoxInside(img, box)
    ensures 0 < |ps| <= 40 * 40
  {
    var win := SkinWindow(box);
    var patch := Crop(FaceCrop(img, box), win.rows, win.cols);
    PixelCount(patch);
    ProductBound(Height(patch), patch.width, 40, 40);
    Flatten(patch.rows)
  }

  /** The pixels of the hair band. */
  function HairPatch(img: Image, box: FaceBox): (ps: seq<Pixel>)
    requires WellFormed(img) && BoxInside(img, box)
    ensures |ps| <= 30 * box.w
    ensures |ps| > 0 <==> box.y > 0 && box.w >= 2
  {
    var win := HairBand(box);
    var patch := Crop(img, win.rows, win.cols);
    PixelCount(patch);
    assert Height(patch) == win.rows.hi - win.rows.lo <= 30;
    assert patch.width == win.cols.hi - win.cols.lo <= box.w;
    ProductBound(Height(patch), patch.width, 30, box.w);
    Flatten(patch.rows)
  }

  lemma ProductBound(a: nat, b: nat, m: nat, n: nat)
    requires a <= m && b <= n
    ensures a * b <= m * n
  {
    MultiplyMonotone(a, b, n);
    MultiplyMonotone(n, a, m);
  }

  lemma MultiplyMonotone(a: nat, b: nat, c: nat)
    requires b <= c
    ensures a * b <= a * c
  {
    assert a * c == a * b + a * (c - b);
  }

  /** The `description` sentence of a found face (hair colour `None` prints as "None"). */
  function Describe(box: FaceBox, gender: string, age: string, skinTone: string, hairColor: Option<string>): (s: string)
    ensures |s| > 7 && s[..7] == "Face @("
  {
    "Face @(" + Decimal.FromInt(box.x) + "," + Decimal.FromInt(box.y) + "), size="
      + Decimal.FromInt(box.w) + SizeSeparator + Decimal.FromInt(box.h)
      + "; Gender: " + gender + "; Age: " + age + "; Skin tone: " + skinTone
      + "; Hair color: " + (match hairColor case Some(c) => c case None => "None") + "."
  }

  /**
   * `analyze_face` on an image, the detector's boxes for it, and the gender
   * and age scores the two networks give for the first box.
   */
  function Analyze(img: Image, faces: seq<FaceBox>, genderScores: seq<int>, ageScores: seq<int>): (p: Profile)
    requires WellFormed(img)
    requires faces != [] ==> BoxInside(img, faces[0])
    requires faces != [] ==> |genderScores| == |Classifier.GenderList| && |ageScores| == |Classifier.AgeBuckets|
    ensures faces == [] ==> p == Profile(NoFaceText, None, None, None, None)
    ensures p.description == NoFaceText <==> faces == []
    ensures faces != [] ==> p.age.Some? && p.age.value in Classifier.AgeBuckets
    ensures faces != [] ==> p.gender.Some? && p.gender.value in Classifier.GenderList
    ensures faces != [] ==>
      exists k: nat :: Classifier.IsFirstMax(ageScores, k) && p.age == Some(Classifier.AgeBuckets[k])
    ensures faces != [] ==>
      exists k: nat :: Classifier.IsFirstMax(genderScores, k) && p.gender == Some(Classifier.GenderList[k])
    ensures faces != [] ==> p.skinTone.Some?
    ensures p.hairColor.Some? <==> faces != [] && faces[0].y > 0 && faces[0].w >= 2
  {
    if faces == [] then
      Profile(NoFaceText, None, None, None, None)
    else
      var box := faces[0];
      var skinTone := Colors.SimpleColor(Mean(SkinPatch(img, box)));
      var hair := HairPatch(img, box);
      var hairColor := if |hair| > 0 then Some(Colors.SimpleColor(Mean(hair))) else None;
      var gender := Classifier.Select(Classifier.GenderList, genderScores);
      var age := Classifier.Select(Classifier.AgeBuckets, ageScores);
      var description := Describe(box, gender, age, skinTone, hairColor);
      assert description[0] != NoFaceText[0];
      Profile(description, Some(age), Some(gender), Some(skinTone), hairColor)
  }

  /** Only the first reported box is analysed; the others make no difference. */
  lemma OnlyFirstFaceMatters(img: Image, box: FaceBox, rest: seq<FaceBox>, rest': seq<FaceBox>,
                             genderScores: seq<int>, ageScores: seq<int>)
    requires WellFormed(img) && BoxInside(img, box)
    requires |genderScores| == |Classifier.GenderList| && |ageScores| == |Classifier.AgeBuckets|
    ensures Analyze(img, [box] + rest, genderScores, ageScores)
         == Analyze(img, [box] + rest', genderScores, ageScores)
  {
    assert ([box] + rest)[0] == box == ([box] + rest')[0];
  }

  /** The skin tone is the bucket of the mean colour of the skin sample. */
  lemma SkinToneIsBucketOfMean(img: Image, faces: seq<FaceBox>, genderScores: seq<int>, ageScores: seq<int>)
    requires WellFormed(img) && faces != [] && BoxInside(img, faces[0])
    requires |genderScores| == |Classifier.GenderList| && |ageScores| == |Classifier.AgeBuckets|
    ensures var m := Mean(SkinPatch(img, faces[0]));
      0 <= m.r <= 255 && 0 <= m.g <= 255 && 0 <= m.b <= 255
      && Analyze(img, faces, genderScores, ageScores).skinTone == Some(Colors.SimpleColor(m))
  {
  }

  /** A face with a non-empty hair band gets the bucket of the band's mean colour as hair colour. */
  lemma HairColorIsBucketOfMean(img: Image, faces: seq<FaceBox>, genderScores: seq<int>, ageScores: seq<int>)
    requires WellFormed(img) && faces != [] && BoxInside(img, faces[0])
    requires faces[0].y > 0 && faces[0].w >= 2
    requires |genderScores| == |Classifier.GenderList| && |ageScores| == |Classifier.AgeBuckets|
    ensures |HairPatch(img, faces[0])| > 0
    ensures var m := Mean(HairPatch(img, faces[0]));
      0 <= m.r <= 255 && 0 <= m.g <= 255 && 0 <= m.b <= 255
      && Analyze(img, faces, genderScores, ageScores).hairColor == Some(Colors.SimpleColor(m))
  {
  }

  /**
   * A face touching the top edge has no hair sample: the hair colour is null
   * while age, gender and skin tone are not, so the four attributes are not
   * all-or-nothing.
   */
  lemma TopEdgeFaceHasNoHairColor(img: Image, faces: seq<FaceBox>, genderScores: seq<int>, ageScores: seq<int>)
    requires WellFormed(img) && faces != [] && BoxInside(img, faces[0]) && faces[0].y == 0
    requires |genderScores| == |Classifier.GenderList| && |ageScores| == |Classifier.AgeBuckets|
    ensures var p := Analyze(img, faces, genderScores, ageScores);
      p.hairColor == None && p.skinTone.Some? && p.age.Some? && p.gender.Some?
  {
  }

  /** A face box whose pixels all have one colour gets that colour's bucket as skin tone. */
  lemma UniformFaceSkinTone(img: Image, faces: seq<FaceBox>, genderScores: seq<int>, ageScores: seq<int>, px: Pixel)
    requires WellFormed(img) && faces != [] && BoxInside(img, faces[0])
    requires |genderScores| == |Classifier.GenderList| && |ageScores| == |Classifier.AgeBuckets|
    requires forall i, j ::
      (faces[0].y <= i < faces[0].y + faces[0].h && faces[0].x <= j < faces[0].x + faces[0].w)
      ==> img.rows[i][j] == px
    ensures Analyze(img, faces, genderScores, ageScores).skinTone
      == Some(Colors.SimpleColor(Colors.Rgb(px.r, px.g, px.b)))
  {
    var box := faces[0];
    var win := SkinWindow(box);
    var face := FaceCrop(img, box);
    var patch := Crop(face, win.rows, win.cols);
    forall i, j | 0 <= i < Height(patch) && 0 <= j < patch.width
      ensures patch.rows[i][j] == px
    {
      assert face.rows[win.rows.lo + i][win.cols.lo + j] == img.rows[box.y + win.rows.lo + i][box.x + win.cols.lo + j];
    }
    FlattenUniform(patch.rows, px);
    UniformMean(SkinPatch(img, box), px);
  }

  lemma {:induction false} FlattenUniform(rows: seq<seq<Pixel>>, px: Pixel)
    requires forall i, j :: 0 <= i < |rows| && 0 <= j < |rows[i]| ==> rows[i][j] == px
    ensures forall k :: 0 <= k < |Flatten(rows)| ==> Flatten(rows)[k] == px
  {
    if rows != [] {
      FlattenUniform(rows[1..], px);
      assert Flatten(rows) == rows[0] + Flatten(rows[1..]);
    }
  }

}
