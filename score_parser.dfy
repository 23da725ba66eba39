/** The score extraction of the prototype service: `re.search` for
    `<SCORE>(\d+\.\d+|\d+)/(\d+\.\d+|\d+)</SCORE>` over the model's text, then
    `float(match.group(1))`.

    The pattern is described declaratively (`MatchesAt`: the text holds, at position i, the
    opening tag, a numeral, a slash, a numeral and the closing tag) and computed by reading the
    text from a start position (`MatchAt`) and trying start positions from the left (`Search`).
    Digits are the ASCII digits; the value of a numeral is its exact decimal value. */
module ScoreParser {
  import opened Wrappers

  const Open := "<SCORE>"
  const Close := "</SCORE>"

  predicate IsDigit(c: char)
  {
    '0' <= c <= '9'
  }

  predicate AllDigits(s: string)
  {
    forall k :: 0 <= k < |s| ==> IsDigit(s[k])
  }

  /** `text` holds `word` at position `i`. */
  predicate HasAt(text: string, i: nat, word: string)
  {
    i + |word| <= |text| && text[i..i + |word|] == word
  }

  /** A group `\d+\.\d+|\d+`: a digit run and an optional fraction after a dot. */
  datatype Numeral = Numeral(whole: string, frac: Option<string>)

  predicate WellFormed(n: Numeral)
  {
    |n.whole| > 0 && AllDigits(n.whole) && (n.frac.Some? ==> |n.frac.value| > 0 && AllDigits(n.frac.value))
  }

  /** The characters the numeral was read from. */
  function Spelling(n: Numeral): string
  {
    n.whole + (if n.frac.Some? then "." + n.frac.value else "")
  }

  /** The whole pattern, with groups `a` and `b`. */
  function Tag(a: Numeral, b: Numeral): string
  {
    Open + Spelling(a) + "/" + Spelling(b) + Close
  }

  /** The pattern matches at position `i`, with group 1 `a` and group 2 `b`. */
  ghost predicate MatchesAt(text: string, i: nat, a: Numeral, b: Numeral)
  {
    WellFormed(a) && WellFormed(b) && HasAt(text, i, Tag(a, b))
  }

  /** The result of `re.search`: where the match starts, and its two groups. */
  datatype ScoreMatch = ScoreMatch(start: nat, grade: Numeral, max: Numeral)

  /** The grade could not be read: `match` is None and `match.group(1)` raises. */
  datatype ScoreError = NoScore

  lemma HasAtJoin(text: string, i: nat, u: string, v: string)
    requires HasAt(text, i, u) && HasAt(text, i + |u|, v)
    ensures HasAt(text, i, u + v)
  {
    assert text[i..i + |u + v|] == text[i..i + |u|] + text[i + |u|..i + |u| + |v|];
  }

  lemma HasAtSplit(text: string, i: nat, u: string, v: string)
    requires HasAt(text, i, u + v)
    ensures HasAt(text, i, u) && HasAt(text, i + |u|, v)
  {
    assert text[i..i + |u|] == text[i..i + |u + v|][..|u|];
    assert text[i + |u|..i + |u| + |v|] == text[i..i + |u + v|][|u|..];
  }

  // ---------------------------------------------------------------------------------------
  // Reading the pattern at one position.

  /** The end of the run of digits that starts at `i`. */
  function DigitsEnd(text: string, i: nat): (j: nat)
    requires i <= |text|
    ensures i <= j <= |text|
    ensures AllDigits(text[i..j])
    ensures j == |text| || !IsDigit(text[j])
    decreases |text| - i
  {
    if i < |text| && IsDigit(text[i]) then DigitsEnd(text, i + 1) else i
  }

  /** One group read at `i`: the longest digit run, and a dot with its digits when both are
      there. Returns the numeral and the position after it. */
  function NumeralAt(text: string, i: nat): (r: Option<(Numeral, nat)>)
    requires i <= |text|
    ensures r.Some? ==> WellFormed(r.value.0) && HasAt(text, i, Spelling(r.value.0))
    ensures r.Some? ==> r.value.1 == i + |Spelling(r.value.0)|
  {
    var w := DigitsEnd(text, i);
    if w == i then None
    else if w < |text| && text[w] == '.' && DigitsEnd(text, w + 1) > w + 1 then
      var f := DigitsEnd(text, w + 1);
      assert text[i..f] == text[i..w] + "." + text[w + 1..f];
      Some((Numeral(text[i..w], Some(text[w + 1..f])), f))
    else
      Some((Numeral(text[i..w], None), w))
  }

  /** The pattern read at position `i`, if it is there. */
  function MatchAt(text: string, i: nat): Option<(Numeral, Numeral)>
    requires i <= |text|
  {
    if !HasAt(text, i, Open) then None
    else match NumeralAt(text, i + |Open|)
      case None => None
      case Some((a, p)) =>
        if !HasAt(text, p, "/") then None
        else match NumeralAt(text, p + 1)
          case None => None
          case Some((b, q)) => if HasAt(text, q, Close) then Some((a, b)) else None
  }

  /** `re.search`: the leftmost start position, from `i` on, at which the pattern matches. */
  function Search(text: string, i: nat): (r: Option<ScoreMatch>)
    requires i <= |text|
    ensures r.Some? ==> i <= r.value.start <= |text| && MatchAt(text, r.value.start) == Some((r.value.grade, r.value.max))
    ensures r.Some? ==> forall j :: i <= j < r.value.start ==> MatchAt(text, j).None?
    ensures r.None? ==> forall j :: i <= j <= |text| ==> MatchAt(text, j).None?
    decreases |text| - i
  {
    match MatchAt(text, i)
    case Some((a, b)) => Some(ScoreMatch(i, a, b))
    case None => if i == |text| then None else Search(text, i + 1)
  }

  function FindScore(text: string): Option<ScoreMatch>
  {
    Search(text, 0)
  }

  // ---------------------------------------------------------------------------------------
  // The numeric value of group 1.

  function DigitValue(c: char): nat
    requires IsDigit(c)
  {
    c as int - '0' as int
  }

  /** The value of a digit string, most significant digit first. */
  function DigitsValue(s: string): nat
    requires AllDigits(s)
  {
    if s == [] then 0 else DigitsValue(s[..|s| - 1]) * 10 + DigitValue(s[|s| - 1])
  }

  function Pow10(n: nat): (p: nat)
    ensures p > 0
  {
    if n == 0 then 1 else 10 * Pow10(n - 1)
  }

  /** `float(group)`, as an exact decimal. */
  function Value(n: Numeral): real
    requires WellFormed(n)
  {
    DigitsValue(n.whole) as real
      + (if n.frac.Some? then DigitsValue(n.frac.value) as real / Pow10(|n.frac.value|) as real else 0.0)
  }

  /** `float(re.search(...).group(1))`: the grade, or the exception when nothing matches. */
  function ExtractGrade(feedback: string): (r: Result<real, ScoreError>)
    ensures r.Ok? <==> FindScore(feedback).Some?
    ensures r.Ok? ==> WellFormed(FindScore(feedback).value.grade) && r.value == Value(FindScore(feedback).value.grade)
    ensures r.Ok? ==> 0.0 <= r.value
  {
    match FindScore(feedback)
    case None => Err(NoScore)
    case Some(m) => Ok(Value(m.grade))
  }

  // ---------------------------------------------------------------------------------------
  // The reading agrees with the declarative pattern.

  lemma {:induction false} DigitsEndAt(text: string, i: nat, j: nat)
    requires i <= j <= |text| && AllDigits(text[i..j]) && (j == |text| || !IsDigit(text[j]))
    ensures DigitsEnd(text, i) == j
    decreases j - i
  {
    if i < j {
      assert text[i..j][0] == text[i];
      assert text[i + 1..j] == text[i..j][1..];
      DigitsEndAt(text, i + 1, j);
    }
  }

  /** A numeral spelled at `i` and followed by a character that is neither a digit nor a dot
      is read back as exactly that numeral. */
  lemma NumeralAtSpelling(text: string, i: nat, n: Numeral)
    requires WellFormed(n) && HasAt(text, i, Spelling(n))
    requires i + |Spelling(n)| < |text|
    requires !IsDigit(text[i + |Spelling(n)|]) && text[i + |Spelling(n)|] != '.'
    ensures NumeralAt(text, i) == Some((n, i + |Spelling(n)|))
  {
    var w := i + |n.whole|;
    var s := Spelling(n);
    assert text[i..w] == s[..|n.whole|] == n.whole;
    match n.frac
    case None =>
      DigitsEndAt(text, i, w);
    case Some(f) =>
      assert text[w] == s[|n.whole|] == '.';
      DigitsEndAt(text, i, w);
      var e := w + 1 + |f|;
      assert text[w + 1..e] == s[|n.whole| + 1..] == f;
      DigitsEndAt(text, w + 1, e);
  }

  /** Soundness: what is read at a position is a match of the pattern there. */
  lemma MatchAtSound(text: string, i: nat)
    requires i <= |text| && MatchAt(text, i).Some?
    ensures MatchesAt(text, i, MatchAt(text, i).value.0, MatchAt(text, i).value.1)
  {
    assert HasAt(text, i, Open);
    var pa := NumeralAt(text, i + |Open|).value;
    var a, p := pa.0, pa.1;
    assert HasAt(text, p, "/");
    var qb := NumeralAt(text, p + 1).value;
    var b, q := qb.0, qb.1;
    assert HasAt(text, q, Close);
    assert MatchAt(text, i) == Some((a, b));
    var sa, sb := Spelling(a), Spelling(b);
    var u1 := Open + sa;
    var u2 := u1 + "/";
    var u3 := u2 + sb;
    HasAtJoin(text, i, Open, sa);
    HasAtJoin(text, i, u1, "/");
    HasAtJoin(text, i, u2, sb);
    HasAtJoin(text, i, u3, Close);
    assert u3 + Close == Tag(a, b);
  }

  /** Completeness: wherever the pattern matches, reading at that position finds it. */
  lemma MatchAtComplete(text: string, i: nat, a: Numeral, b: Numeral)
    requires MatchesAt(text, i, a, b)
    ensures MatchAt(text, i) == Some((a, b))
  {
    var sa, sb := Spelling(a), Spelling(b);
    var p := i + |Open| + |sa|;
    var q := p + 1 + |sb|;
    HasAtSplit(text, i, Open + sa + "/" + sb, Close);
    HasAtSplit(text, i, Open + sa + "/", sb);
    HasAtSplit(text, i, Open + sa, "/");
    HasAtSplit(text, i, Open, sa);
    assert text[p] == text[p..p + 1][0];
    assert text[q] == text[q..q + |Close|][0];
    NumeralAtSpelling(text, i + |Open|, a);
    NumeralAtSpelling(text, p + 1, b);
    assert HasAt(text, i, Open);
    assert NumeralAt(text, i + |Open|) == Some((a, p));
    assert HasAt(text, p, "/");
    assert NumeralAt(text, p + 1) == Some((b, q));
    assert HasAt(text, q, Close);
  }

  /** For a given start position the two groups are unique: digits and dots never include
      the slash or the angle bracket that end them. */
  lemma GroupsUnique(text: string, i: nat, a: Numeral, b: Numeral, a': Numeral, b': Numeral)
    requires MatchesAt(text, i, a, b) && MatchesAt(text, i, a', b')
    ensures a == a' && b == b'
  {
    MatchAtComplete(text, i, a, b);
    MatchAtComplete(text, i, a', b');
  }

  /** `FindScore` is `re.search`: it returns the leftmost position at which the pattern
      matches, with its groups, and nothing exactly when the pattern occurs nowhere. */
  lemma FindScoreLeftmost(text: string)
    ensures FindScore(text).Some? ==>
      var m := FindScore(text).value;
      MatchesAt(text, m.start, m.grade, m.max)
      && forall j: nat, a, b :: j < m.start ==> !MatchesAt(text, j, a, b)
    ensures FindScore(text).None? <==> forall j: nat, a, b :: !MatchesAt(text, j, a, b)
  {
    var r := FindScore(text);
    if r.Some? {
      MatchAtSound(text, r.value.start);
      forall j: nat, a, b | j < r.value.start && MatchesAt(text, j, a, b) ensures false {
        MatchAtComplete(text, j, a, b);
      }
    } else {
      forall j: nat, a, b | MatchesAt(text, j, a, b) ensures false {
        MatchAtComplete(text, j, a, b);
      }
    }
  }

  /** The grade is the value of group 1 of the leftmost match; with no match the call raises. */
  lemma GradeOfLeftmostMatch(text: string, i: nat, a: Numeral, b: Numeral)
    requires MatchesAt(text, i, a, b)
    requires forall j: nat, a', b' :: j < i ==> !MatchesAt(text, j, a', b')
    ensures ExtractGrade(text) == Ok(Value(a))
  {
    FindScoreLeftmost(text);
    assert FindScore(text).Some?;
    var m := FindScore(text).value;
    assert m.start == i;
    GroupsUnique(text, i, a, b, m.grade, m.max);
  }

  lemma NoScoreRaises(text: string)
    requires forall j: nat, a, b :: !MatchesAt(text, j, a, b)
    ensures ExtractGrade(text) == Err(NoScore)
  {
    FindScoreLeftmost(text);
  }

  /** A tag after text in which no `<` starts `<S`: the grade is group 1, whatever group 2
      (the echoed maximum) says, and nothing bounds the grade by that maximum. */
  lemma GradeIgnoresMaximum(pre: string, a: Numeral, b: Numeral, post: string)
    requires WellFormed(a) && WellFormed(b)
    requires forall k :: 0 <= k < |pre| && pre[k] == '<' ==> k + 1 < |pre| && pre[k + 1] != 'S'
    ensures ExtractGrade(pre + Tag(a, b) + post) == Ok(Value(a))
  {
    var text := pre + Tag(a, b) + post;
    assert text[|pre|..|pre| + |Tag(a, b)|] == Tag(a, b);
    forall j: nat, a', b' | j < |pre| ensures !MatchesAt(text, j, a', b') {
      var t := Tag(a', b');
      assert t[0] == '<' && t[1] == 'S';
      assert j + |t| <= |text| ==> text[j..j + |t|][0] == text[j] && text[j..j + |t|][1] == text[j + 1];
      assert text[j] == pre[j];
      assert j + 1 < |pre| ==> text[j + 1] == pre[j + 1];
    }
    GradeOfLeftmostMatch(text, |pre|, a, b);
  }

  lemma WellFormedExamples()
    ensures WellFormed(Numeral("8", None)) && Value(Numeral("8", None)) == 8.0
    ensures WellFormed(Numeral("10", None)) && Value(Numeral("10", None)) == 10.0
    ensures WellFormed(Numeral("12", None)) && Value(Numeral("12", None)) == 12.0
    ensures WellFormed(Numeral("7", Some("5"))) && Value(Numeral("7", Some("5"))) == 7.5
  {
    assert "8"[..0] == "" && "7"[..0] == "" && "5"[..0] == "";
    assert "10"[..1] == "1" && "12"[..1] == "1" && "1"[..0] == "";
  }

  /** The reply `<FEEDBACK>Good answer<FEEDBACK><SCORE>8/10</SCORE>` grades 8. */
  lemma EightOutOfTen()
    ensures ExtractGrade("<FEEDBACK>Good answer<FEEDBACK>" + Tag(Numeral("8", None), Numeral("10", None))) == Ok(8.0)
  {
    var eight, ten := Numeral("8", None), Numeral("10", None);
    var pre := "<FEEDBACK>Good answer<FEEDBACK>";
    assert forall k :: 0 <= k < |pre| && pre[k] == '<' ==> k + 1 < |pre| && pre[k + 1] != 'S';
    WellFormedExamples();
    GradeIgnoresMaximum("<FEEDBACK>Good answer<FEEDBACK>", eight, ten, "");
    assert "<FEEDBACK>Good answer<FEEDBACK>" + Tag(eight, ten) + "" == "<FEEDBACK>Good answer<FEEDBACK>" + Tag(eight, ten);
  }

  /** `<SCORE>12/10</SCORE>`: a grade above the echoed maximum is returned as it is. */
  lemma TwelveOutOfTen()
    ensures ExtractGrade(Tag(Numeral("12", None), Numeral("10", None))) == Ok(12.0)
  {
    var twelve, ten := Numeral("12", None), Numeral("10", None);
    WellFormedExamples();
    GradeIgnoresMaximum("", twelve, ten, "");
    assert "" + Tag(twelve, ten) + "" == Tag(twelve, ten);
  }

  /** `<SCORE>7.5/10</SCORE>`: a fractional group 1 keeps its exact decimal value. */
  lemma SevenAndAHalf()
    ensures ExtractGrade(Tag(Numeral("7", Some("5")), Numeral("10", None))) == Ok(7.5)
  {
    var grade, ten := Numeral("7", Some("5")), Numeral("10", None);
    WellFormedExamples();
    GradeIgnoresMaximum("", grade, ten, "");
    assert "" + Tag(grade, ten) + "" == Tag(grade, ten);
  }

  /** The fallback text has no score in it, so it cannot be graded. */
  lemma FallbackHasNoScore()
    ensures ExtractGrade("No feedback generated") == Err(NoScore)
  {
    var text := "No feedback generated";
    forall j: nat, a, b ensures !MatchesAt(text, j, a, b) {
      var t := Tag(a, b);
      assert t[0] == '<';
      assert j + |t| <= |text| ==> text[j..j + |t|][0] == text[j];
    }
    NoScoreRaises(text);
  }
}
