/**
  Escaping text for HTML, and a decoder that reads character references for itself
  (section 13.1.4 of the HTML Living Standard): the named ones by their letters,
  the decimal ones by the value of their digits. It takes everything else literally.
 */
module HtmlEscape {
  import opened Options
  import opened CodeUnits

  const AMP: CodeUnit := 0x26
  const LT: CodeUnit := 0x3C
  const GT: CodeUnit := 0x3E
  const QUOT: CodeUnit := 0x22
  const APOS: CodeUnit := 0x27

  const AMP_REF: Text := [0x26, 0x61, 0x6D, 0x70, 0x3B]         // &amp;
  const LT_REF: Text := [0x26, 0x6C, 0x74, 0x3B]                // &lt;
  const GT_REF: Text := [0x26, 0x67, 0x74, 0x3B]                // &gt;
  const QUOT_REF: Text := [0x26, 0x71, 0x75, 0x6F, 0x74, 0x3B]  // &quot;
  const APOS_REF: Text := [0x26, 0x23, 0x33, 0x39, 0x3B]        // &#39;

  predicate IsSpecial(c: CodeUnit) {
    c == AMP || c == LT || c == GT || c == QUOT || c == APOS
  }

  function EscapeUnit(c: CodeUnit): Text {
    if c == AMP then AMP_REF
    else if c == LT then LT_REF
    else if c == GT then GT_REF
    else if c == QUOT then QUOT_REF
    else if c == APOS then APOS_REF
    else [c]
  }

  function Escape(s: Text): Text {
    if s == [] then [] else EscapeUnit(s[0]) + Escape(s[1..])
  }

  /** null and undefined escape to the empty string. */
  function EscapeHtml(value: Option<Text>): Text {
    match value
    case None => []
    case Some(s) => Escape(s)
  }

  // ----- decoding -----

  predicate IsDigit(c: CodeUnit) {
    '0' as int <= c <= '9' as int
  }

  function DigitsValue(digits: Text): nat
    requires forall c <- digits :: IsDigit(c)
  {
    if digits == [] then 0
    else
      var last: int := digits[|digits| - 1];
      assert IsDigit(last);
      10 * DigitsValue(digits[..|digits| - 1]) + (last - '0' as int)
  }

  /** The code unit a decimal reference names, if it is written in digits and is one. */
  function Decimal(digits: Text): Option<CodeUnit> {
    if digits == [] || (exists c <- digits :: !IsDigit(c)) then None
    else if DigitsValue(digits) < 0x1_0000 then Some(DigitsValue(digits))
    else None
  }

  /** What the part of a reference between `&` and `;` stands for. */
  function Denotes(name: Text): Option<CodeUnit> {
    if name != [] && name[0] == '#' as int then Decimal(name[1..])
    else if name == Literal("amp") then Some('&' as int)
    else if name == Literal("lt") then Some('<' as int)
    else if name == Literal("gt") then Some('>' as int)
    else if name == Literal("quot") then Some('\"' as int)
    else if name == Literal("apos") then Some('\'' as int)
    else None
  }

  function IndexOf(t: Text, c: CodeUnit): (r: Option<nat>)
    ensures r.Some? ==> r.value < |t| && t[r.value] == c && forall i | 0 <= i < r.value :: t[i] != c
  {
    if t == [] then None
    else if t[0] == c then Some(0)
    else
      match IndexOf(t[1..], c)
      case Some(i) => Some(i + 1)
      case None => None
  }

  /** The code unit that the reference at the start of `t` stands for, and the length of the reference. */
  function ReadReference(t: Text): (r: Option<(CodeUnit, nat)>)
    ensures r.Some? ==> 0 < r.value.1 <= |t| && t[0] == '&' as int
  {
    if t == [] || t[0] != '&' as int then None
    else
      match IndexOf(t, ';' as int)
      case None => None
      case Some(end) =>
        match Denotes(t[1..end])
        case None => None
        case Some(c) => Some((c, end + 1))
  }

  function Decode(t: Text): Text
    decreases |t|
  {
    if t == [] then []
    else
      match ReadReference(t)
      case Some((c, n)) => [c] + Decode(t[n..])
      case None => [t[0]] + Decode(t[1..])
  }

  // ----- what the escaper writes is read back -----

  lemma DecimalOfTwo(a: CodeUnit, b: CodeUnit)
    requires IsDigit(a) && IsDigit(b)
    ensures Decimal([a, b]) == Some(10 * (a - '0' as int) + (b - '0' as int))
  {
    assert [a, b][..1] == [a] && [a][..0] == [];
    assert DigitsValue([a]) == a - '0' as int;
  }

  /** The escaped form of a special character is a reference that stands for that character. */
  lemma EscapedDenotes(c: CodeUnit)
    requires IsSpecial(c)
    ensures var u := EscapeUnit(c);
      && |u| > 2 && u[0] == '&' as int && u[|u| - 1] == ';' as int
      && (forall i | 0 <= i < |u| - 1 :: u[i] != ';' as int)
      && Denotes(u[1..|u| - 1]) == Some(c)
  {
    DecimalOfTwo(0x33, 0x39);
    assert APOS_REF[1..4] == [0x23, 0x33, 0x39] && [0x23, 0x33, 0x39][1..] == [0x33, 0x39];
    assert AMP_REF[1..4] == Literal("amp");
    assert LT_REF[1..3] == Literal("lt");
    assert GT_REF[1..3] == Literal("gt");
    assert QUOT_REF[1..5] == Literal("quot");
  }

  lemma {:induction false} IndexIs(t: Text, c: CodeUnit, n: nat)
    requires n < |t| && t[n] == c && forall i | 0 <= i < n :: t[i] != c
    ensures IndexOf(t, c) == Some(n)
  {
    if n > 0 { IndexIs(t[1..], c, n - 1); }
  }

  lemma ReadEscaped(c: CodeUnit, rest: Text)
    ensures var (u, t) := (EscapeUnit(c), EscapeUnit(c) + rest);
      && ReadReference(t) == (if IsSpecial(c) then Some((c, |u|)) else None)
      && t != [] && t[0] == u[0] && t[|u|..] == rest
  {
    var u, t := EscapeUnit(c), EscapeUnit(c) + rest;
    if IsSpecial(c) {
      EscapedDenotes(c);
      IndexIs(t, ';' as int, |u| - 1);
      assert t[1..|u| - 1] == u[1..|u| - 1];
    }
  }

  /** Decoding undoes escaping on every string. */
  lemma {:induction false} RoundTrip(s: Text)
    ensures Decode(Escape(s)) == s
  {
    if s != [] {
      RoundTrip(s[1..]);
      ReadEscaped(s[0], Escape(s[1..]));
    }
  }

  lemma EscapeHtmlRoundTrip(value: Option<Text>)
    ensures Decode(EscapeHtml(value)) == value.GetOr([])
    ensures WellEscaped(EscapeHtml(value))
  {
    if value.Some? {
      RoundTrip(value.value);
      EscapeIsWellEscaped(value.value);
    }
  }

  /** So no two strings have the same escaped form. */
  lemma EscapeInjective(s: Text, t: Text)
    requires Escape(s) == Escape(t)
    ensures s == t
  {
    RoundTrip(s);
    RoundTrip(t);
  }

  lemma EscapeOfCons(c: CodeUnit, s: Text)
    ensures Escape([c] + s) == EscapeUnit(c) + Escape(s)
  {
    assert ([c] + s)[1..] == s;
  }

  lemma Associate(a: Text, b: Text, c: Text)
    ensures a + b + c == a + (b + c)
  {
  }

  /** Escaping piece by piece or all at once is the same. */
  lemma {:induction false} EscapeConcat(s: Text, t: Text)
    ensures Escape(s + t) == Escape(s) + Escape(t)
  {
    if s == [] {
      assert s + t == t;
    } else {
      var c, rest := s[0], s[1..];
      assert s == [c] + rest && s + t == [c] + (rest + t);
      EscapeConcat(rest, t);
      EscapeOfCons(c, rest);
      EscapeOfCons(c, rest + t);
      Associate(EscapeUnit(c), Escape(rest), Escape(t));
    }
  }

  lemma {:induction false} EscapeLength(s: Text)
    ensures |s| <= |Escape(s)| <= 6 * |s|
    ensures |Escape(s)| == |s| <==> forall c <- s :: !IsSpecial(c)
  {
    if s != [] {
      EscapeLength(s[1..]);
      assert s[0] in s && forall c <- s[1..] :: c in s;
      assert s == [s[0]] + s[1..];
    }
  }

  // ----- which texts are escaped texts -----

  /** The special character whose escaped form `t` starts with. */
  function ReferenceAt(t: Text): Option<CodeUnit> {
    if AMP_REF <= t then Some(AMP)
    else if LT_REF <= t then Some(LT)
    else if GT_REF <= t then Some(GT)
    else if QUOT_REF <= t then Some(QUOT)
    else if APOS_REF <= t then Some(APOS)
    else None
  }

  lemma ReferenceOfEscaped(c: CodeUnit, rest: Text)
    requires IsSpecial(c)
    ensures ReferenceAt(EscapeUnit(c) + rest) == Some(c)
  {
    var t := EscapeUnit(c) + rest;
    assert t[1] == EscapeUnit(c)[1] && t[2] == EscapeUnit(c)[2];
    assert EscapeUnit(c) <= t;
  }

  /** The four characters that no escaped text contains. */
  predicate IsForbidden(c: CodeUnit) {
    c == '<' as int || c == '>' as int || c == '\"' as int || c == '\'' as int
  }

  /** No angle bracket or quote, and every `&` starts one of the five references. */
  ghost predicate WellEscaped(t: Text) {
    && (forall i | 0 <= i < |t| :: !IsForbidden(t[i]))
    && (forall i | 0 <= i < |t| && t[i] == '&' as int :: ReferenceAt(t[i..]).Some?)
  }

  lemma WellEscapedTail(t: Text, n: nat)
    requires WellEscaped(t) && n <= |t|
    ensures WellEscaped(t[n..])
  {
    forall i | 0 <= i < |t[n..]| && IsSpecial(t[n..][i])
      ensures t[n..][i] == AMP && ReferenceAt(t[n..][i..]).Some?
    {
      assert t[n..][i..] == t[n + i..];
    }
  }

  /** Only the first code unit of a reference is special. */
  lemma ReferenceInterior(c: CodeUnit, i: nat)
    requires 0 < i < |EscapeUnit(c)|
    ensures !IsSpecial(EscapeUnit(c)[i])
  {
  }

  lemma WellEscapedCons(c: CodeUnit, rest: Text)
    requires WellEscaped(rest)
    ensures WellEscaped(EscapeUnit(c) + rest)
  {
    var u, t := EscapeUnit(c), EscapeUnit(c) + rest;
    forall i | 0 <= i < |t| && IsSpecial(t[i])
      ensures t[i] == AMP && ReferenceAt(t[i..]).Some?
    {
      if i >= |u| {
        assert t[i..] == rest[i - |u|..];
      } else if i > 0 {
        ReferenceInterior(c, i);
        assert false;
      } else {
        ReferenceOfEscaped(c, rest);
        assert t[0..] == t && t[0] == u[0];
      }
    }
  }

  /** A reference at the start of a text is the escaped form of what it stands for. */
  lemma ReferencePrefix(t: Text)
    requires t != []
    ensures match ReferenceAt(t)
            case Some(c) => IsSpecial(c) && EscapeUnit(c) <= t && t == EscapeUnit(c) + t[|EscapeUnit(c)|..]
            case None => t == [t[0]] + t[1..]
  {
  }

  /** The first piece of a well escaped text: the escaped form of what is decoded from it. */
  lemma WellEscapedStep(t: Text) returns (c: CodeUnit, rest: Text)
    requires WellEscaped(t) && t != []
    ensures t == EscapeUnit(c) + rest && |rest| < |t| && WellEscaped(rest)
    ensures Decode(t) == [c] + Decode(rest)
  {
    assert t[0..] == t;
    ReferencePrefix(t);
    c := if t[0] == '&' as int then ReferenceAt(t).value else t[0];
    rest := t[|EscapeUnit(c)|..];
    WellEscapedTail(t, |EscapeUnit(c)|);
    ReadEscaped(c, rest);
  }

  /** The outputs of the escaper are exactly the well escaped texts, and on those decoding is undone by escaping. */
  lemma {:induction false} EscapedExactlyWhenWellEscaped(t: Text)
    ensures WellEscaped(t) <==> Escape(Decode(t)) == t
    decreases |t|
  {
    if WellEscaped(t) && t != [] {
      var c, rest := WellEscapedStep(t);
      EscapedExactlyWhenWellEscaped(rest);
      EscapeOfCons(c, Decode(rest));
    }
    if Escape(Decode(t)) == t {
      EscapeIsWellEscaped(Decode(t));
    }
  }

  /** Escaped text holds no `<`, `>` or quote, and every `&` in it starts a reference. */
  lemma {:induction false} EscapeIsWellEscaped(s: Text)
    ensures WellEscaped(Escape(s))
  {
    if s != [] {
      EscapeIsWellEscaped(s[1..]);
      WellEscapedCons(s[0], Escape(s[1..]));
    }
  }
}
