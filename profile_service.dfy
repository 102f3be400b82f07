/**
 * The comparison inside `verify_profile` (app/main.py:44-58): the four
 * attributes of a stored profile against a fresh analysis, collected into a
 * mismatch map keyed by attribute name, and `match` as its emptiness.
 */
module ProfileService {
  import opened Optional
  import opened FaceAnalysis
  import Classifier
  import Regions

  /** An (expected, observed) pair: the reference value, then the computed one. */
  type Pair = (Option<string>, Option<string>)

  /** The four compared attributes, in the order the source compares them. */
  datatype Field = Age | Gender | SkinTone | HairColor

  /** The key under which a mismatch is reported. */
  function Key(f: Field): string {
    match f
    case Age => "age"
    case Gender => "gender"
    case SkinTone => "skin_tone"
    case HairColor => "hair_color"
  }

  function Value(p: Profile, f: Field): Option<string> {
    match f
    case Age => p.age
    case Gender => p.gender
    case SkinTone => p.skinTone
    case HairColor => p.hairColor
  }

  /** Reference and computed profile agree on all four attributes (`None == None`). */
  predicate SameAttributes(reference: Profile, computed: Profile) {
    forall f: Field :: Value(reference, f) == Value(computed, f)
  }

  /** One step of the comparison: record attribute `f` in `m` when the two profiles differ on it. */
  function Record(m: map<string, Pair>, reference: Profile, computed: Profile, f: Field): (r: map<string, Pair>)
    ensures Key(f) in r <==> Key(f) in m || Value(reference, f) != Value(computed, f)
    ensures Value(reference, f) != Value(computed, f) ==> r[Key(f)] == (Value(reference, f), Value(computed, f))
    ensures forall k :: k != Key(f) ==> (k in r <==> k in m)
    ensures forall k :: k in m && (k != Key(f) || Value(reference, f) == Value(computed, f)) ==> r[k] == m[k]
  {
    if Value(reference, f) != Value(computed, f) then m[Key(f) := (Value(reference, f), Value(computed, f))] else m
  }

  /** The mismatch map the four comparisons build, starting from an empty map. */
  function Mismatches(reference: Profile, computed: Profile): (m: map<string, Pair>)
    ensures forall k :: k in m ==> k in {"age", "gender", "skin_tone", "hair_color"}
    ensures |m| <= 4
  {
    var m0 := map[];
    var m1 := Record(m0, reference, computed, Age);
    var m2 := Record(m1, reference, computed, Gender);
    var m3 := Record(m2, reference, computed, SkinTone);
    Record(m3, reference, computed, HairColor)
  }

  /** The keys are distinct, so no comparison overwrites another's entry. */
  lemma KeyInjective(f: Field, g: Field)
    ensures Key(f) == Key(g) ==> f == g
  {
  }

  /**
   * Key-wise reading of the mismatch map: an attribute's key is present exactly
   * when the two profiles differ on it, with the (reference, computed) pair as
   * its value, and no other key is ever present.
   */
  lemma MismatchesKeyWise(reference: Profile, computed: Profile)
    ensures var m := Mismatches(reference, computed);
      (forall f: Field :: Key(f) in m <==> Value(reference, f) != Value(computed, f))
      && (forall f: Field :: Key(f) in m ==> m[Key(f)] == (Value(reference, f), Value(computed, f)))
      && (forall k :: k in m ==> k in {"age", "gender", "skin_tone", "hair_color"})
  {
    var m := Mismatches(reference, computed);
    forall f: Field | Key(f) in m ensures m[Key(f)] == (Value(reference, f), Value(computed, f)) {
      assert f == Age || f == Gender || f == SkinTone || f == HairColor;
    }
  }

  /**
   * The comparison as the source performs it: start from an empty map and
   * insert each differing attribute in turn, then test for emptiness.
   */
  method Diff(reference: Profile, computed: Profile) returns (matched: bool, mismatches: map<string, Pair>)
    ensures forall f: Field :: Key(f) in mismatches <==> Value(reference, f) != Value(computed, f)
    ensures forall f: Field :: Key(f) in mismatches ==> mismatches[Key(f)] == (Value(reference, f), Value(computed, f))
    ensures forall k :: k in mismatches ==> k in {"age", "gender", "skin_tone", "hair_color"}
    ensures matched <==> |mismatches| == 0
    ensures matched <==> SameAttributes(reference, computed)
    ensures mismatches == Mismatches(reference, computed)
  {
    mismatches := map[];
    if reference.age != computed.age {
      mismatches := mismatches[Key(Age) := (reference.age, computed.age)];
    }
    if reference.gender != computed.gender {
      mismatches := mismatches[Key(Gender) := (reference.gender, computed.gender)];
    }
    if reference.skinTone != computed.skinTone {
      mismatches := mismatches[Key(SkinTone) := (reference.skinTone, computed.skinTone)];
    }
    if reference.hairColor != computed.hairColor {
      mismatches := mismatches[Key(HairColor) := (reference.hairColor, computed.hairColor)];
    }
    matched := |mismatches| == 0;
    MismatchesKeyWise(reference, computed);
    MatchIffAttributesAgree(reference, computed);
  }

  /**
   * `verify_profile` on a new image: analyse it, then compare with the
   * reference profile.
   */
  method VerifyProfile(reference: Profile, img: Regions.Image, faces: seq<FaceBox>,
                       genderScores: seq<int>, ageScores: seq<int>)
    returns (matched: bool, mismatches: map<string, Pair>)
    requires Regions.WellFormed(img)
    requires faces != [] ==> BoxInside(img, faces[0])
    requires faces != [] ==> |genderScores| == |Classifier.GenderList| && |ageScores| == |Classifier.AgeBuckets|
    ensures matched <==> SameAttributes(reference, Analyze(img, faces, genderScores, ageScores))
    ensures matched <==> |mismatches| == 0
    ensures mismatches == Mismatches(reference, Analyze(img, faces, genderScores, ageScores))
  {
    var computed := Analyze(img, faces, genderScores, ageScores);
    matched, mismatches := Diff(reference, computed);
  }

  /** The description is not compared: only the four attributes decide the outcome. */
  lemma MatchIffAttributesAgree(reference: Profile, computed: Profile)
    ensures |Mismatches(reference, computed)| == 0 <==> SameAttributes(reference, computed)
  {
    var m := Mismatches(reference, computed);
    MismatchesKeyWise(reference, computed);
    if !SameAttributes(reference, computed) {
      var f: Field :| Value(reference, f) != Value(computed, f);
      assert Key(f) in m;
    } else {
      assert m == map[];
    }
  }

  /** Verifying a profile against the very analysis it was created from succeeds. */
  lemma SelfVerificationMatches(img: Regions.Image, faces: seq<FaceBox>, genderScores: seq<int>, ageScores: seq<int>)
    requires Regions.WellFormed(img)
    requires faces != [] ==> BoxInside(img, faces[0])
    requires faces != [] ==> |genderScores| == |Classifier.GenderList| && |ageScores| == |Classifier.AgeBuckets|
    ensures var p := Analyze(img, faces, genderScores, ageScores);
      Mismatches(p, p) == map[]
  {
  }

  /** A single differing attribute gives a one-entry map under that attribute's key. */
  lemma SingleMismatch(reference: Profile, computed: Profile, f: Field)
    requires Value(reference, f) != Value(computed, f)
    requires forall g: Field :: g != f ==> Value(reference, g) == Value(computed, g)
    ensures Mismatches(reference, computed) == map[Key(f) := (Value(reference, f), Value(computed, f))]
  {
    var m := Mismatches(reference, computed);
    MismatchesKeyWise(reference, computed);
    forall k | k in m ensures k == Key(f) {
      assert k == Key(Age) || k == Key(Gender) || k == Key(SkinTone) || k == Key(HairColor);
    }
  }

  /** A different age alone, ("(25-32)" stored, "(8-12)" observed). */
  lemma AgeOnlyExample(reference: Profile, computed: Profile)
    requires reference.age == Some("(25-32)") && computed.age == Some("(8-12)")
    requires reference.gender == computed.gender && reference.skinTone == computed.skinTone
    requires reference.hairColor == computed.hairColor
    ensures Mismatches(reference, computed) == map["age" := (Some("(25-32)"), Some("(8-12)"))]
  {
    SingleMismatch(reference, computed, Age);
  }

}
