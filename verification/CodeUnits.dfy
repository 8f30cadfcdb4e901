/**
  Strings as the program sees them: sequences of UTF-16 code units, with the
  white space test and `trim` of ECMAScript.
 */
module CodeUnits {
  import opened Options

  type CodeUnit = n: nat | n < 0x1_0000

  type Text = seq<CodeUnit>

  const SPACE: CodeUnit := 0x20

  /** Text of a literal; every character of the Basic Multilingual Plane is one code unit. */
  function Literal(s: string): (t: Text)
    ensures |t| == |s|
  {
    seq<CodeUnit>(|s|, i requires 0 <= i < |s| => s[i] as int % 0x1_0000)
  }

  /** ECMAScript WhiteSpace or LineTerminator: what `\s` matches and `trim` strips. */
  predicate IsSpace(c: CodeUnit) {
    || 0x09 <= c <= 0x0D
    || c == 0x20 || c == 0xA0 || c == 0x1680
    || 0x2000 <= c <= 0x200A
    || c == 0x2028 || c == 0x2029 || c == 0x202F || c == 0x205F
    || c == 0x3000 || c == 0xFEFF
  }

  function TrimStart(s: Text): Text {
    if s != [] && IsSpace(s[0]) then TrimStart(s[1..]) else s
  }

  function TrimEnd(s: Text): Text {
    if s != [] && IsSpace(s[|s| - 1]) then TrimEnd(s[..|s| - 1]) else s
  }

  function Trim(s: Text): Text {
    TrimEnd(TrimStart(s))
  }

  /** No white space at either end. */
  predicate IsTrimmed(s: Text) {
    s == [] || (!IsSpace(s[0]) && !IsSpace(s[|s| - 1]))
  }

  predicate AllSpace(s: Text) {
    forall c <- s :: IsSpace(c)
  }

  lemma {:induction false} TrimStartSplits(s: Text) returns (lead: Text)
    ensures s == lead + TrimStart(s) && AllSpace(lead)
    ensures TrimStart(s) != [] ==> !IsSpace(TrimStart(s)[0])
  {
    if s != [] && IsSpace(s[0]) {
      var rest := TrimStartSplits(s[1..]);
      lead := [s[0]] + rest;
      assert s == [s[0]] + s[1..];
    } else {
      lead := [];
    }
  }

  lemma {:induction false} TrimEndSplits(s: Text) returns (tail: Text)
    ensures s == TrimEnd(s) + tail && AllSpace(tail)
    ensures TrimEnd(s) != [] ==> !IsSpace(TrimEnd(s)[|TrimEnd(s)| - 1])
  {
    if s != [] && IsSpace(s[|s| - 1]) {
      var rest := TrimEndSplits(s[..|s| - 1]);
      tail := rest + [s[|s| - 1]];
      assert s == s[..|s| - 1] + [s[|s| - 1]];
    } else {
      tail := [];
    }
  }

  /** `trim` removes white space at the two ends and nothing else. */
  lemma TrimSplits(s: Text) returns (lead: Text, tail: Text)
    ensures s == lead + Trim(s) + tail
    ensures AllSpace(lead) && AllSpace(tail)
    ensures IsTrimmed(Trim(s))
  {
    lead := TrimStartSplits(s);
    var middle := TrimStart(s);
    tail := TrimEndSplits(middle);
    assert s == lead + (Trim(s) + tail);
    if Trim(s) != [] {
      assert middle[0] == Trim(s)[0];
    }
  }

  /** Trimming changes nothing exactly when there is nothing to strip. */
  lemma TrimFixed(s: Text)
    ensures Trim(s) == s <==> IsTrimmed(s)
    ensures Trim(Trim(s)) == Trim(s) && IsTrimmed(Trim(s))
  {
    var _, _ := TrimSplits(s);
    if IsTrimmed(s) {
      assert TrimStart(s) == s;
    }
    var t := Trim(s);
    assert TrimStart(t) == t;
  }

  /** A present and non-empty string: what a JavaScript condition on it tests. */
  predicate Truthy(o: Option<Text>) {
    o.Some? && o.value != []
  }

  /** The empty string turned into null, as `value || null` does. */
  function NonEmpty(t: Text): Option<Text> {
    if t == [] then None else Some(t)
  }
}
