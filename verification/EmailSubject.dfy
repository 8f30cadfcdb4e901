/**
  The subject line sanitizer: control characters become spaces, white space runs
  collapse, the ends are trimmed, and the length is bounded.
 */
module EmailSubject {
  import opened Options
  import opened CodeUnits

  const EMAIL_SUBJECT_MAX: nat := 200
  const ELLIPSIS: CodeUnit := 0x2026

  predicate IsControl(c: CodeUnit) {
    c <= 0x1F || 0x7F <= c <= 0x9F || c == 0x2028 || c == 0x2029
  }

  /** The length of the longest prefix of `s` that `p` accepts. */
  function RunLength(s: Text, p: CodeUnit -> bool): (n: nat)
    ensures n <= |s| && (forall i | 0 <= i < n :: p(s[i])) && (n < |s| ==> !p(s[n]))
  {
    if s == [] || !p(s[0]) then 0 else 1 + RunLength(s[1..], p)
  }

  /** Replaces every maximal run of at least `min` code units of `p` by one space, as a greedy global regex does. */
  function ReplaceRuns(s: Text, p: CodeUnit -> bool, min: nat): Text
    requires min >= 1
    decreases |s|
  {
    if s == [] then []
    else
      var n := RunLength(s, p);
      if n >= min then [SPACE] + ReplaceRuns(s[n..], p, min)
      else if n == 0 then [s[0]] + ReplaceRuns(s[1..], p, min)
      else s[..n] + ReplaceRuns(s[n..], p, min)
  }

  function WithoutControls(s: Text): Text {
    ReplaceRuns(s, IsControl, 1)
  }

  function Collapse(s: Text): Text {
    ReplaceRuns(s, IsSpace, 2)
  }

  /** The subject before its length is bounded. */
  function OneLine(s: Text): Text {
    Trim(Collapse(WithoutControls(s)))
  }

  function Truncate(s: Text): Text {
    if |s| > EMAIL_SUBJECT_MAX then s[..EMAIL_SUBJECT_MAX - 1] + [ELLIPSIS] else s
  }

  function SanitizeEmailSubject(value: Option<Text>): Text {
    Truncate(OneLine(value.GetOr([])))
  }

  // ----- what a clean subject is -----

  predicate NoControls(s: Text) {
    forall c <- s :: !IsControl(c)
  }

  predicate NoDoubleSpace(s: Text) {
    forall i | 0 <= i < |s| - 1 :: !(IsSpace(s[i]) && IsSpace(s[i + 1]))
  }

  predicate Clean(s: Text) {
    NoControls(s) && NoDoubleSpace(s) && IsTrimmed(s)
  }

  lemma {:induction false} ReplaceHead(s: Text, p: CodeUnit -> bool, min: nat)
    requires min >= 1
    ensures ReplaceRuns(s, p, min) == [] <==> s == []
    ensures s != [] && !p(s[0]) ==> ReplaceRuns(s, p, min)[0] == s[0]
  {
  }

  /** Every code unit of the result is a space or comes from the input. */
  lemma {:induction false} ReplaceUnits(s: Text, p: CodeUnit -> bool, min: nat)
    requires min >= 1
    ensures forall c <- ReplaceRuns(s, p, min) :: c == SPACE || (c in s && (min == 1 ==> !p(c)))
    decreases |s|
  {
    if s != [] {
      var n := RunLength(s, p);
      ReplaceUnits(if n == 0 then s[1..] else s[n..], p, min);
    }
  }

  lemma {:induction false} CollapseSeparates(s: Text)
    ensures NoDoubleSpace(Collapse(s))
    decreases |s|
  {
    if s != [] {
      var n := RunLength(s, IsSpace);
      var rest := if n == 0 then s[1..] else s[n..];
      CollapseSeparates(rest);
      ReplaceHead(rest, IsSpace, 2);
      var head := if n >= 2 then [SPACE] else [s[0]];
      assert n == 1 ==> s[..n] == [s[0]];
      assert Collapse(s) == head + Collapse(rest);
    }
  }

  lemma SliceKeepsClean(lead: Text, s: Text, tail: Text)
    requires NoControls(lead + s + tail) && NoDoubleSpace(lead + s + tail)
    ensures NoControls(s) && NoDoubleSpace(s)
  {
    var t := lead + s + tail;
    forall i | 0 <= i < |s|
      ensures s[i] == t[|lead| + i]
    {
    }
    assert forall c <- s :: c in t;
  }

  lemma OneLineIsClean(s: Text)
    ensures Clean(OneLine(s))
  {
    var a := WithoutControls(s);
    ReplaceUnits(s, IsControl, 1);
    ReplaceUnits(a, IsSpace, 2);
    CollapseSeparates(a);
    var lead, tail := TrimSplits(Collapse(a));
    SliceKeepsClean(lead, OneLine(s), tail);
  }

  lemma TruncateKeepsClean(s: Text)
    requires Clean(s)
    ensures Clean(Truncate(s)) && |Truncate(s)| <= EMAIL_SUBJECT_MAX
  {
  }

  // ----- clean subjects are left alone -----

  /** Nowhere in `s` does a run of `min` code units of `p` start. */
  predicate NoRun(s: Text, p: CodeUnit -> bool, min: nat) {
    forall i | 0 <= i < |s| :: RunLength(s[i..], p) < min
  }

  lemma NoRunTail(s: Text, p: CodeUnit -> bool, min: nat, k: nat)
    requires NoRun(s, p, min) && k <= |s|
    ensures NoRun(s[k..], p, min)
    ensures s != [] ==> RunLength(s, p) < min
  {
    assert s[0..] == s;
    forall i | 0 <= i < |s[k..]|
      ensures RunLength(s[k..][i..], p) < min
    {
      assert s[k..][i..] == s[k + i..];
    }
  }

  lemma Glue(s: Text, k: nat, rest: Text)
    requires k <= |s| && rest == s[k..]
    ensures s[..k] + rest == s
  {
  }

  /** A first run too short to replace is copied. */
  lemma ShortRunCopied(s: Text, p: CodeUnit -> bool, min: nat)
    requires s != [] && RunLength(s, p) < min
    ensures var n := RunLength(s, p);
      && (n > 0 ==> ReplaceRuns(s, p, min) == s[..n] + ReplaceRuns(s[n..], p, min))
      && (n == 0 ==> ReplaceRuns(s, p, min) == s[..1] + ReplaceRuns(s[1..], p, min))
  {
    assert s[..1] == [s[0]];
  }

  lemma {:induction false} NoRunNoChange(s: Text, p: CodeUnit -> bool, min: nat)
    requires min >= 1 && NoRun(s, p, min)
    ensures ReplaceRuns(s, p, min) == s
    decreases |s|
  {
    if s != [] {
      var n := RunLength(s, p);
      var k := if n == 0 then 1 else n;
      NoRunTail(s, p, min, k);
      ShortRunCopied(s, p, min);
      NoRunNoChange(s[k..], p, min);
      Glue(s, k, ReplaceRuns(s[k..], p, min));
    }
  }

  lemma CleanIsKept(s: Text)
    requires Clean(s)
    ensures OneLine(s) == s
  {
    forall i | 0 <= i < |s|
      ensures RunLength(s[i..], IsControl) < 1 && RunLength(s[i..], IsSpace) < 2
    {
      assert s[i..][0] == s[i] && s[i] in s;
      if i + 1 < |s| { assert s[i..][1] == s[i + 1]; }
    }
    NoRunNoChange(s, IsControl, 1);
    NoRunNoChange(s, IsSpace, 2);
    TrimFixed(s);
  }

  /**
    Sanitizing changes nothing exactly when the subject is clean and short
    enough: the clean subjects of at most 200 code units are its outputs.
   */
  lemma SanitizedExactlyWhenClean(s: Text)
    ensures SanitizeEmailSubject(Some(s)) == s <==> Clean(s) && |s| <= 200
  {
    SubjectIsSafe(Some(s));
    if Clean(s) { CleanIsKept(s); }
  }

  /**
    No control character (so no line break), single spaces only, trimmed, at most
    200 code units, also after truncation; and nothing that was not in the subject
    but blanks and the ellipsis.
   */
  lemma SubjectIsSafe(value: Option<Text>)
    ensures var r := SanitizeEmailSubject(value);
      && Clean(r) && |r| <= 200
      && forall c <- r ::
        && 0x20 <= c && !(0x7F <= c <= 0x9F) && c != 0x2028 && c != 0x2029
        && (c == 0x20 || c == 0x2026 || c in value.GetOr([]))
  {
    var s := value.GetOr([]);
    OneLineIsClean(s);
    TruncateKeepsClean(OneLine(s));
    ReplaceUnits(s, IsControl, 1);
    ReplaceUnits(WithoutControls(s), IsSpace, 2);
    var lead, tail := TrimSplits(Collapse(WithoutControls(s)));
    forall c | c in OneLine(s)
      ensures c == 0x20 || c in s
    {
      assert c in lead + OneLine(s) + tail;
    }
    assert forall c <- SanitizeEmailSubject(value) :: c == 0x2026 || c in OneLine(s);
  }

  lemma SanitizeIdempotent(value: Option<Text>)
    ensures SanitizeEmailSubject(Some(SanitizeEmailSubject(value))) == SanitizeEmailSubject(value)
  {
    SubjectIsSafe(value);
    SanitizedExactlyWhenClean(SanitizeEmailSubject(value));
  }

  // ----- the words of the subject survive -----

  predicate IsSeparator(c: CodeUnit) {
    IsSpace(c) || IsControl(c)
  }

  predicate StartsWord(s: Text) {
    s != [] && !IsSeparator(s[0])
  }

  /** The maximal pieces of `s` between white space and control characters. */
  function Words(s: Text): (w: seq<Text>)
    ensures StartsWord(s) ==> w != []
  {
    if s == [] then []
    else if IsSeparator(s[0]) then Words(s[1..])
    else if StartsWord(s[1..]) then
      var w := Words(s[1..]);
      [[s[0]] + w[0]] + w[1..]
    else [[s[0]]] + Words(s[1..])
  }

  lemma WordsCons(c: CodeUnit, s: Text)
    ensures Words([c] + s)
         == if IsSeparator(c) then Words(s)
            else if StartsWord(s) then [[c] + Words(s)[0]] + Words(s)[1..]
            else [[c]] + Words(s)
  {
    assert ([c] + s)[1..] == s;
  }

  predicate AllSeparators(s: Text) {
    forall c <- s :: IsSeparator(c)
  }

  lemma {:induction false} WordsSkip(lead: Text, s: Text)
    requires AllSeparators(lead)
    ensures Words(lead + s) == Words(s)
  {
    if lead == [] {
      assert lead + s == s;
    } else {
      assert lead[0] in lead;
      assert (lead + s)[1..] == lead[1..] + s;
      WordsSkip(lead[1..], s);
    }
  }

  lemma {:induction false} WordsDrop(s: Text, tail: Text)
    requires AllSeparators(tail)
    ensures Words(s + tail) == Words(s)
  {
    if s == [] {
      assert s + tail == tail && tail + [] == tail;
      WordsSkip(tail, []);
    } else {
      WordsDrop(s[1..], tail);
      assert (s + tail)[1..] == s[1..] + tail;
      if s[1..] == [] && tail != [] {
        assert (s + tail)[1..][0] == tail[0] && tail[0] in tail;
      }
    }
  }

  /** The same words, and a word at the start of both or of neither. */
  predicate SameWords(s: Text, t: Text) {
    Words(s) == Words(t) && StartsWord(s) == StartsWord(t)
  }

  lemma SameWordsCons(c: CodeUnit, s: Text, t: Text)
    requires SameWords(s, t)
    ensures SameWords([c] + s, [c] + t)
  {
    WordsCons(c, s);
    WordsCons(c, t);
  }

  lemma SameWordsSkip(lead: Text, lead': Text, s: Text, t: Text)
    requires lead != [] && lead' != [] && AllSeparators(lead) && AllSeparators(lead') && SameWords(s, t)
    ensures SameWords(lead + s, lead' + t)
  {
    WordsSkip(lead, s);
    WordsSkip(lead', t);
    assert lead[0] in lead && lead'[0] in lead';
  }

  /** Replacing runs of separators by a space keeps the words. */
  lemma {:induction false} ReplaceKeepsWords(s: Text, p: CodeUnit -> bool, min: nat)
    requires min >= 1
    requires forall c: CodeUnit :: p(c) ==> IsSeparator(c)
    ensures SameWords(ReplaceRuns(s, p, min), s)
    decreases |s|
  {
    if s != [] {
      var n := RunLength(s, p);
      var k := if n == 0 then 1 else n;
      ReplaceKeepsWords(s[k..], p, min);
      assert s == s[..k] + s[k..];
      if n == 0 {
        SameWordsCons(s[0], ReplaceRuns(s[1..], p, min), s[1..]);
      } else {
        SameWordsSkip(if n >= min then [SPACE] else s[..n], s[..n], ReplaceRuns(s[n..], p, min), s[n..]);
      }
    }
  }

  lemma TrimKeepsWords(s: Text)
    ensures Words(Trim(s)) == Words(s)
  {
    var lead, tail := TrimSplits(s);
    var middle := Trim(s);
    assert lead + middle + tail == lead + (middle + tail);
    WordsSkip(lead, middle + tail);
    WordsDrop(middle, tail);
  }

  lemma OneLineKeepsWords(s: Text)
    ensures Words(OneLine(s)) == Words(s)
  {
    ReplaceKeepsWords(s, IsControl, 1);
    ReplaceKeepsWords(WithoutControls(s), IsSpace, 2);
    TrimKeepsWords(Collapse(WithoutControls(s)));
  }

  /**
    A subject that fits keeps all its words; a longer one is cut after 199 code
    units of a line that keeps them all, and says so with an ellipsis.
   */
  lemma {:induction false} SubjectKeepsWords(value: Option<Text>) returns (line: Text)
    ensures Words(line) == Words(value.GetOr([])) && Clean(line)
    ensures |line| <= 200 ==> SanitizeEmailSubject(value) == line
    ensures |line| > 200 ==> SanitizeEmailSubject(value) == line[..199] + [0x2026]
  {
    line := OneLine(value.GetOr([]));
    OneLineIsClean(value.GetOr([]));
    OneLineKeepsWords(value.GetOr([]));
  }
}
