/**
 * The colour-bucketing function `rgb_to_simple_color` (app/main.py:69-86):
 * an ordered chain of seven threshold guards on a mean (r, g, b) sample,
 * first match wins, with a literal "rgb(r,g,b)" string when no guard holds.
 */
module Colors {
  import Decimal
  import Optional

  /** A mean colour sample, one integer per channel. */
  datatype Rgb = Rgb(r: int, g: int, b: int)

  /** The seven guards, in the order the source tests them. */
  datatype Rule = Black | White | Blonde | Red | Brown | DarkBrown | Gray

  const Rules: seq<Rule> := [Black, White, Blonde, Red, Brown, DarkBrown, Gray]

  /** The threshold test of each guard. */
  predicate Holds(rule: Rule, c: Rgb) {
    match rule
    case Black => c.r < 60 && c.g < 60 && c.b < 60
    case White => c.r > 200 && c.g > 200 && c.b > 200
    case Blonde => c.r > 150 && c.g > 100 && c.b < 80
    case Red => c.r > 100 && c.g < 80 && c.b < 80
    case Brown => c.r > 80 && c.g > 60 && c.b > 40
    case DarkBrown => c.r < 120 && c.g < 120 && c.b < 120
    case Gray => c.b > c.r && c.b > c.g
  }

  /** The label each guard returns. */
  function Name(rule: Rule): string {
    match rule
    case Black => "black"
    case White => "white"
    case Blonde => "blonde"
    case Red => "red"
    case Brown => "brown"
    case DarkBrown => "dark brown"
    case Gray => "gray"
  }

  /** The string returned when no guard holds: `f"rgb({r},{g},{b})"`. */
  function Fallback(c: Rgb): (s: string)
    ensures |s| >= 9 && s[..4] == "rgb(" && s[|s| - 1] == ')'
  {
    "rgb(" + Components(Decimal.FromInt(c.r), Decimal.FromInt(c.g), Decimal.FromInt(c.b))
  }

  /** `rgb_to_simple_color`, guard by guard as the source writes it. */
  function SimpleColor(c: Rgb): (s: string)
    ensures s in NamedLabels() || s == Fallback(c)
  {
    if c.r < 60 && c.g < 60 && c.b < 60 then "black"
    else if c.r > 200 && c.g > 200 && c.b > 200 then "white"
    else if c.r > 150 && c.g > 100 && c.b < 80 then "blonde"
    else if c.r > 100 && c.g < 80 && c.b < 80 then "red"
    else if c.r > 80 && c.g > 60 && c.b > 40 then "brown"
    else if c.r < 120 && c.g < 120 && c.b < 120 then "dark brown"
    else if c.b > c.r && c.b > c.g then "gray"
    else Fallback(c)
  }

  function NamedLabels(): set<string> {
    {"black", "white", "blonde", "red", "brown", "dark brown", "gray"}
  }

  /**
   * Reference reading of an ordered rule list: the first rule whose guard
   * holds, if any.
   */
  function FirstMatch(rules: seq<Rule>, c: Rgb): (m: Optional.Option<nat>)
    ensures m.Some? ==> m.value < |rules| && Holds(rules[m.value], c)
    ensures m.Some? ==> forall j :: 0 <= j < m.value ==> !Holds(rules[j], c)
    ensures m.None? ==> forall j :: 0 <= j < |rules| ==> !Holds(rules[j], c)
  {
    if rules == [] then Optional.None
    else if Holds(rules[0], c) then Optional.Some(0)
    else match FirstMatch(rules[1..], c)
      case None => Optional.None
      case Some(k) => Optional.Some(k + 1)
  }

  /** The label the rule table assigns: first matching rule's name, else the fallback. */
  function TableLabel(c: Rgb): string {
    match FirstMatch(Rules, c)
    case Some(k) => Name(Rules[k])
    case None => Fallback(c)
  }

  /** The if-chain agrees with the ordered rule table. */
  lemma SimpleColorIsFirstMatch(c: Rgb)
    ensures SimpleColor(c) == TableLabel(c)
  {
    var m := FirstMatch(Rules, c);
    if m.Some? {
      var k := m.value;
      assert forall j :: 0 <= j < k ==> !Holds(Rules[j], c);
      assert Holds(Rules[k], c);
      if k >= 1 { assert !Holds(Rules[0], c); }
      if k >= 2 { assert !Holds(Rules[1], c); }
      if k >= 3 { assert !Holds(Rules[2], c); }
      if k >= 4 { assert !Holds(Rules[3], c); }
      if k >= 5 { assert !Holds(Rules[4], c); }
      if k >= 6 { assert !Holds(Rules[5], c); }
    } else {
      assert forall j :: 0 <= j < 7 ==> !Holds(Rules[j], c);
      assert !Holds(Rules[0], c) && !Holds(Rules[1], c) && !Holds(Rules[2], c);
      assert !Holds(Rules[3], c) && !Holds(Rules[4], c) && !Holds(Rules[5], c);
      assert !Holds(Rules[6], c);
    }
  }

  /** The fallback text is never one of the seven names. */
  lemma FallbackIsNotNamed(c: Rgb)
    ensures Fallback(c) !in NamedLabels()
  {
    var s := Fallback(c);
    assert s[0] == 'r' && s[1] == 'g';
  }

  /** The position of the first `sep` in `s`, or `|s|` when there is none. */
  function IndexOf(s: string, sep: char): (k: nat)
    ensures k <= |s|
    ensures k < |s| ==> s[k] == sep
    ensures forall i :: 0 <= i < k ==> s[i] != sep
  {
    if s == [] then 0 else if s[0] == sep then 0 else 1 + IndexOf(s[1..], sep)
  }

  /** A separator that does not occur in `x` splits `x + [sep] + y` back into `x` and `y`. */
  lemma {:induction false} SplitAt(x: string, y: string, sep: char)
    requires sep !in x
    ensures IndexOf(x + [sep] + y, sep) == |x|
    ensures (x + [sep] + y)[..|x|] == x && (x + [sep] + y)[|x| + 1..] == y
  {
    if x != [] {
      assert (x + [sep] + y)[1..] == x[1..] + [sep] + y;
      SplitAt(x[1..], y, sep);
    }
  }

  lemma NoSeparatorInNumber(n: int)
    ensures ',' !in Decimal.FromInt(n) && ')' !in Decimal.FromInt(n)
  {
    var s := Decimal.FromInt(n);
    forall i | 0 <= i < |s| ensures s[i] != ',' && s[i] != ')' {
    }
  }

  /** Two strings split at a separator absent from their first parts agree part by part. */
  lemma SplitUnique(x: string, y: string, x': string, y': string, sep: char)
    requires sep !in x && sep !in x'
    ensures x + [sep] + y == x' + [sep] + y' ==> x == x' && y == y'
  {
    SplitAt(x, y, sep);
    SplitAt(x', y', sep);
  }

  /** The part of the fallback text after "rgb(". */
  function Components(r: string, g: string, b: string): (s: string)
    ensures |s| == |r| + |g| + |b| + 3 && s[|s| - 1] == ')'
  {
    r + [','] + (g + [','] + (b + [')']))
  }

  lemma ComponentsInjective(r: string, g: string, b: string, r': string, g': string, b': string)
    requires ',' !in r && ',' !in g && ')' !in b && ',' !in r' && ',' !in g' && ')' !in b'
    ensures Components(r, g, b) == Components(r', g', b') ==> r == r' && g == g' && b == b'
  {
    SplitUnique(r, g + [','] + (b + [')']), r', g' + [','] + (b' + [')']), ',');
    SplitUnique(g, b + [')'], g', b' + [')'], ',');
    SplitUnique(b, [], b', [], ')');
  }

  /** The fallback text determines the sample: distinct samples are reported differently. */
  lemma FallbackInjective(c: Rgb, c': Rgb)
    ensures Fallback(c) == Fallback(c') ==> c == c'
  {
    var r, g, b := Decimal.FromInt(c.r), Decimal.FromInt(c.g), Decimal.FromInt(c.b);
    var r', g', b' := Decimal.FromInt(c'.r), Decimal.FromInt(c'.g), Decimal.FromInt(c'.b);
    NoSeparatorInNumber(c.r); NoSeparatorInNumber(c.g); NoSeparatorInNumber(c.b);
    NoSeparatorInNumber(c'.r); NoSeparatorInNumber(c'.g); NoSeparatorInNumber(c'.b);
    assert Fallback(c)[4..] == Components(r, g, b);
    assert Fallback(c')[4..] == Components(r', g', b');
    ComponentsInjective(r, g, b, r', g', b');
    Decimal.FromIntInjective(c.r, c'.r);
    Decimal.FromIntInjective(c.g, c'.g);
    Decimal.FromIntInjective(c.b, c'.b);
  }

  /** The seven names are pairwise distinct. */
  lemma NamesDistinct(i: nat, j: nat)
    requires i < |Rules| && j < |Rules|
    ensures Name(Rules[i]) == Name(Rules[j]) ==> i == j
  {
  }

  /**
   * First match wins: the label of guard i is returned exactly when guard i
   * holds and every earlier guard fails, whatever later guards would say.
   */
  lemma FirstMatchWins(c: Rgb, i: nat)
    requires i < |Rules|
    ensures SimpleColor(c) == Name(Rules[i])
        <==> Holds(Rules[i], c) && forall j :: 0 <= j < i ==> !Holds(Rules[j], c)
  {
    SimpleColorIsFirstMatch(c);
    FallbackIsNotNamed(c);
    var m := FirstMatch(Rules, c);
    if m.Some? {
      NamesDistinct(m.value, i);
      if m.value < i {
        assert Holds(Rules[m.value], c);
      }
    }
    assert Name(Rules[i]) in NamedLabels();
  }

  /** The fallback string is returned exactly when all seven guards fail. */
  lemma FallbackIffNoGuard(c: Rgb)
    ensures SimpleColor(c) == Fallback(c) <==> forall rule: Rule :: !Holds(rule, c)
  {
    SimpleColorIsFirstMatch(c);
    FallbackIsNotNamed(c);
    var m := FirstMatch(Rules, c);
    if m.Some? {
      assert Name(Rules[m.value]) in NamedLabels();
    } else {
      forall rule: Rule ensures !Holds(rule, c) {
        assert rule == Rules[0] || rule == Rules[1] || rule == Rules[2] || rule == Rules[3]
            || rule == Rules[4] || rule == Rules[5] || rule == Rules[6];
      }
    }
  }

  /** "black" is returned exactly for dark samples, whichever later guards also hold. */
  lemma BlackExactly(c: Rgb)
    ensures SimpleColor(c) == "black" <==> c.r < 60 && c.g < 60 && c.b < 60
  {
    FirstMatchWins(c, 0);
  }

  /** "brown" implies the four earlier guards failed and the brown thresholds hold. */
  lemma BrownMeansEarlierGuardsFailed(c: Rgb)
    requires SimpleColor(c) == "brown"
    ensures !Holds(Black, c) && !Holds(White, c) && !Holds(Blonde, c) && !Holds(Red, c)
    ensures c.r > 80 && c.g > 60 && c.b > 40
  {
  }

  /** Concrete samples and the guard that catches each. */
  lemma Examples()
    ensures SimpleColor(Rgb(30, 30, 30)) == "black"
    ensures SimpleColor(Rgb(210, 215, 220)) == "white"
    ensures SimpleColor(Rgb(10, 10, 200)) == "gray"
    ensures SimpleColor(Rgb(250, 10, 10)) == "red"
  {
  }

  /** A sample no guard catches is reported as its literal components. */
  lemma FallbackExample()
    ensures SimpleColor(Rgb(130, 50, 100)) == "rgb(130,50,100)"
  {
    var c := Rgb(130, 50, 100);
    assert forall rule: Rule :: !Holds(rule, c);
    assert SimpleColor(c) == Fallback(c);
    FallbackTextOfExample();
  }

  lemma FallbackTextOfExample()
    ensures Fallback(Rgb(130, 50, 100)) == "rgb(130,50,100)"
  {
  }

  /** Order matters: (30, 30, 30) passes both the black and the dark-brown guard. */
  lemma OrderDecides()
    ensures Holds(Black, Rgb(30, 30, 30)) && Holds(DarkBrown, Rgb(30, 30, 30))
    ensures SimpleColor(Rgb(30, 30, 30)) != Name(DarkBrown)
  {
  }

}
