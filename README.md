# Face profile analysis — Dafny model

This project models the logic of a small face-profile web service. The service takes a photo and finds a face with a Haar-cascade detector. It derives four attributes: an age bracket and a gender label from two pretrained classifiers, and a skin tone and a hair colour from mean colours of two sampling regions. A second endpoint re-analyses a new photo and reports which attributes differ from a stored profile.

The detector's box list, the image's pixel array and the two classifiers' score vectors are parameters of the model. The model covers what the service computes from them:

- `Colors`: the ordered colour-bucketing chain `rgb_to_simple_color`. Seven threshold guards are tried in order and the first match wins. When no guard holds, the literal string `rgb(r,g,b)` is returned.
- `Decimal`: the decimal rendering of integers that the f-strings use, with its inverse.
- `Classifier`: the fixed age and gender label lists, and label choice by argmax. Ties go to the lowest index.
- `Regions`: the pixel array, numpy-style clamped slicing, flattening, and the per-channel mean.
- `FaceAnalysis`: `analyze_face`. It covers the no-face result, the use of the first box only, the skin window and hair band, the null hair colour when the band is empty, and the description sentence.
- `ProfileService`: the comparison in `verify_profile`. It builds the mismatch map one attribute at a time, and `match` is true when the map is empty.

Facts about the code that are easy to misread:

- `(250,10,10)` passes the `red` guard at app/main.py:78, so it buckets to `"red"`.
- `hair_color` is None while a face is found whenever the hair band is empty (app/main.py:109-118): the face touches the top edge or is under two pixels wide. So the four attributes are not all-or-nothing (`FaceAnalysis.TopEdgeFaceHasNoHairColor`).
- The comment in the source calls the hair sample a "40x20 region". The code takes up to 30 rows and the columns from `x+w//4` to `x+3*w//4`.

## Model

| member | source | states |
|---|---|---|
| `Colors.SimpleColor` | app/main.py:69-86 | the bucketing function is total: its result is one of the seven guard names or the `rgb(r,g,b)` fallback for that sample |
| `Colors.Fallback` | app/main.py:86 | the fallback text has the form `rgb(` … `)` around the three rendered components |
| `Colors.FirstMatch` | app/main.py:72-85 | reading of an ordered guard list: the index it gives is a guard that holds with every earlier guard failing, and none means no guard holds |
| `Colors.SimpleColorIsFirstMatch` | app/main.py:69-86 | the if-chain equals the ordered rule table: name of the first holding guard, else the fallback |
| `Colors.FallbackInjective` | app/main.py:86 | distinct samples give distinct fallback texts: a comma or a closing parenthesis never occurs in a rendered integer, so the text splits back into its three components |
| `Colors.FallbackIsNotNamed` | app/main.py:86 | the fallback string never equals one of the seven names |
| `Colors.FirstMatchWins` | app/main.py:72-85 | guard i's label is returned if and only if guard i holds and every earlier guard fails |
| `Colors.FallbackIffNoGuard` | app/main.py:84-86 | the `rgb(r,g,b)` string is returned if and only if all seven guards fail |
| `Colors.BlackExactly` | app/main.py:72-73 | "black" is returned exactly when r<60, g<60 and b<60, whatever later guards would say |
| `Colors.BrownMeansEarlierGuardsFailed` | app/main.py:72-81 | "brown" implies the black, white, blonde and red guards failed and r>80, g>60, b>40 |
| `Colors.Examples` | app/main.py:72-85 | (30,30,30)→black, (210,215,220)→white, (10,10,200)→gray, (250,10,10)→red |
| `Colors.FallbackExample` | app/main.py:84-86 | (130,50,100) fails every guard and gives the literal "rgb(130,50,100)" |
| `Colors.OrderDecides` | app/main.py:72-83 | (30,30,30) satisfies both the black and the dark-brown guard, and the earlier one decides |
| `Decimal.NatDigits` | app/main.py:86 | the rendering of a natural number is a non-empty digit string with no leading zero |
| `Decimal.FromInt` | app/main.py:86 | `str(n)`: the digits of n for n ≥ 0, and for n < 0 a minus sign followed by the digits of −n |
| `Decimal.NatDigitsRoundTrip` | app/main.py:86 | reading the digits of n back gives n |
| `Decimal.FromIntRoundTrip` | app/main.py:86 | parsing `str(n)` gives n back |
| `Decimal.FromIntInjective` | app/main.py:86 | distinct integers render differently |
| `Classifier.LabelListsShape` | app/main.py:13-15 | `AGE_BUCKETS` has 8 distinct labels and `GENDER_LIST` 2 distinct labels, the sizes of the networks' output layers |
| `Classifier.ArgMax` | app/main.py:123-126 | the chosen index is in range, scores at least as high as every unit, and beats every earlier unit strictly (first maximum) |
| `Classifier.FirstMaxUnique` | app/main.py:123-126 | there is only one first maximum, so argmax is fully determined by that property |
| `Classifier.Select` | app/main.py:123-126 | the label is an entry of the label list, taken at a first-maximum index of the scores |
| `Classifier.StrictWinnerSelected` | app/main.py:123-126 | a unit scoring strictly above all others gets its own label |
| `Classifier.TieGoesToLowerIndex` | app/main.py:123-126 | of two tied top scores the later index is never chosen |
| `Classifier.Examples` | app/main.py:13-15 | an age vector peaking at unit 4 gives "(25-32)"; a gender tie gives "Male" |
| `Regions.SliceLen` | app/main.py:105 | the length of a clamped slice: at most the sequence length and hi−lo, positive exactly when lo<hi and lo is in range |
| `Regions.Slice` | app/main.py:105 | Python slicing `s[lo:hi]`: clamped length, and element i is `s[lo+i]` |
| `Regions.Crop` | app/main.py:100 | a 2-D slice is rectangular with clamped height and width, and pixel (i,j) is the source pixel (lo+i, lo+j) |
| `Regions.PixelCount` | app/main.py:113-114 | the flattened region has height×width pixels, so it is non-empty exactly when both are positive |
| `Regions.Flatten` | app/main.py:106 | `reshape(-1, 3)`: every pixel of the rows occurs in the list, and nothing else |
| `Regions.FlattenRowMajor` | app/main.py:106 | for rows of equal width the list is row-major with height×width entries: pixel (i,j) sits at position i·width+j, so every pixel appears exactly once |
| `Regions.Sum` | app/main.py:106 | a channel sum is at most 255 per pixel |
| `Regions.ChannelMean` | app/main.py:106 | the mean of a channel stays within 0..255 |
| `Regions.Mean` | app/main.py:106 | the mean colour of a non-empty region has every channel in 0..255 |
| `Regions.UniformMean` | app/main.py:106 | a region of a single colour has that colour as its mean |
| `FaceAnalysis.BoxInside` | app/main.py:96-99 | what the detector guarantees of a reported box (non-empty, inside the image); such a box's top-left pixel is in the image |
| `FaceAnalysis.SkinWindow` | app/main.py:104-105 | the skin window lies inside the face box and spans at most 40×40. It contains the box centre whenever w,h ≥ 1, and is exactly 40 high (wide) once h (w) ≥ 40 |
| `FaceAnalysis.HairBand` | app/main.py:109-112 | the hair band ends at the box top, spans at most 30 rows (exactly 30 when y ≥ 30), and stays within the box's columns. It has rows iff y>0 and columns iff w ≥ 2 |
| `FaceAnalysis.FaceCrop` | app/main.py:100 | the face crop is h×w and pixel (i,j) is image pixel (y+i, x+j) |
| `FaceAnalysis.SkinPatch` | app/main.py:104-106 | the skin sample of a reported box is never empty and has at most 1600 pixels |
| `FaceAnalysis.HairPatch` | app/main.py:109-114 | the hair sample has at most 30·w pixels and is non-empty exactly when y>0 and w ≥ 2 |
| `FaceAnalysis.Describe` | app/main.py:127 | a found face is described by a sentence starting "Face @(" |
| `FaceAnalysis.Analyze` | app/main.py:89-128 | no face gives ("No face detected.", null×4). A face gives a non-null skin tone, and age and gender as the labels at the first maximum of their score vectors, so within the 8 buckets and the 2 labels. Hair colour is non-null iff a face is found with y>0 and w ≥ 2 |
| `FaceAnalysis.OnlyFirstFaceMatters` | app/main.py:97-99 | boxes after the first do not change the result |
| `FaceAnalysis.SkinToneIsBucketOfMean` | app/main.py:104-107 | the skin tone is the bucket of the skin sample's mean colour, which lies in 0..255 per channel |
| `FaceAnalysis.HairColorIsBucketOfMean` | app/main.py:109-116 | with y>0 and w ≥ 2 the hair sample is non-empty and the hair colour is the bucket of its mean colour, which lies in 0..255 per channel |
| `FaceAnalysis.TopEdgeFaceHasNoHairColor` | app/main.py:109-118 | a face at y = 0 has a null hair colour while age, gender and skin tone are non-null |
| `FaceAnalysis.UniformFaceSkinTone` | app/main.py:100-107 | if the whole face box has one colour, the skin tone is that colour's bucket |
| `ProfileService.Record` | app/main.py:49-56 | one conditional insert: the attribute's key gains the (reference, computed) pair when the two differ, and every other entry is unchanged |
| `ProfileService.Mismatches` | app/main.py:48-56 | the four inserts from an empty map leave at most the four attribute keys |
| `ProfileService.KeyInjective` | app/main.py:48-56 | the four attribute keys are distinct, so no comparison overwrites another's entry |
| `ProfileService.MismatchesKeyWise` | app/main.py:48-56 | key k is present iff reference.k ≠ computed.k (null equals null), with value (reference.k, computed.k). No key other than the four appears |
| `ProfileService.Diff` | app/main.py:48-57 | the step-by-step map satisfies the key-wise description, and match holds iff the map is empty iff all four attributes agree |
| `ProfileService.VerifyProfile` | app/main.py:44-58 | verification compares the reference with the analysis of the new image: match iff the mismatch map is empty iff the four attributes agree |
| `ProfileService.MatchIffAttributesAgree` | app/main.py:57 | the mismatch map is empty iff the four attributes agree; the description is never compared |
| `ProfileService.SelfVerificationMatches` | app/main.py:47-57 | a profile verified against the analysis it came from has no mismatches |
| `ProfileService.SingleMismatch` | app/main.py:48-56 | exactly one differing attribute gives a one-entry map under its key |
| `ProfileService.AgeOnlyExample` | app/main.py:49-50 | stored age "(25-32)" against observed "(8-12)", all else equal, gives {"age": ("(25-32)", "(8-12)")} |

## Left out

- The HTTP layer is not modelled: FastAPI routing, multipart upload, PIL decoding and the pydantic models (app/main.py:1-6, 22-46). `Profile` is a datatype, and `create_profile` only copies the analysis tuple into it.
- Loading the Caffe networks and the Haar cascade (app/main.py:8-11, 18-19, 60-67) is left out. So are `detectMultiScale` (app/main.py:96) and `blobFromImage`/`forward` (app/main.py:120-125). They are foreign OpenCV calls. Their outputs (the box list and the two score vectors) are parameters of `FaceAnalysis.Analyze`. The scores are integers standing for the networks' float outputs; only their order matters to argmax.
- `FaceAnalysis.Analyze` requires what the detector and the networks guarantee. The first box is non-empty and inside the image. The score vectors have the networks' output sizes (2 and 8).
- Resizing images whose longer side exceeds 600 pixels (app/main.py:90-93) is left out. It uses float scaling and truncation, so the model's image is the one after resizing.
- Grayscale conversion and RGB→BGR conversion (app/main.py:95, 102) are library colour transforms and are left out.
- `Regions.Mean`: `np.mean(...).astype(int)` is a float mean truncated to int. The model reads it as floor(sum / count) per channel and does not model float rounding.
- `Decimal` is used to render the description and the fallback text. It does not model the width or encoding of the characters.
- The description sentence is modelled with the characters the source writes between width and height (U+00C3 U+2014, the mis-encoded "×"). Only its first characters are stated.
- Python dicts keep insertion order, which fixes the JSON order of the mismatch entries (age, gender, skin_tone, hair_color). Dafny maps are unordered, so this order is not captured.
- The model assumes the decoded image is a 3-channel RGB array. The source takes whatever PIL decodes (app/main.py:94). A greyscale or palette image fails in the grey conversion (app/main.py:95). A 4-channel RGBA image passes both colour conversions. Then `reshape(-1, 3)` (app/main.py:106, 115) either raises, when the value count is not a multiple of 3, or mixes channels into the "mean colour". None of this is modelled.
- models/download_models.py is not part of this model. It only downloads files over HTTP.
