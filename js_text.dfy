/** The JavaScript value and string semantics the report handler relies on:
    truthiness, `toString`, `trim`, `toUpperCase` and `Array.prototype.join("")`. */
module JsText {

  /** The JavaScript values that reach the handler as an identifier, a payload or a
      cell value. `Undefined` stands for both `undefined` and `null`; `RichText` is
      an object carrying a `richText` array, given here by its fragments' texts;
      `OtherObject` is any other object (a hyperlink, a formula, a nested record). */
  datatype Value =
    | Undefined
    | Str(s: string)
    | Num(n: int)
    | Bool(b: bool)
    | RichText(fragments: seq<string>)
    | OtherObject

  /** JavaScript truthiness: `undefined`/`null`, the empty string, zero and `false`
      are falsy; everything else, every object included, is truthy. */
  predicate IsTruthy(v: Value) {
    match v
    case Undefined => false
    case Str(s) => s != ""
    case Num(n) => n != 0
    case Bool(b) => b
    case RichText(_) => true
    case OtherObject => true
  }

  /** `v.toString()`. The handler calls it only on truthy values. An object without
      its own `toString` prints as "[object Object]". */
  function ToString(v: Value): (r: string)
    requires IsTruthy(v)
    ensures v.Str? ==> r == v.s
    ensures v.Num? ==> r == DecimalString(v.n)
    ensures v.Bool? ==> r == "true"
    ensures v.RichText? || v.OtherObject? ==> r == "[object Object]"
  {
    match v
    case Str(s) => s
    case Num(n) => DecimalString(n)
    case Bool(b) => "true"
    case RichText(_) => "[object Object]"
    case OtherObject => "[object Object]"
  }

  // ---------------------------------------------------------------- whitespace

  /** The code points ECMAScript classes as WhiteSpace or LineTerminator: exactly
      those that `trim` removes at both ends and that `\s` matches. Below U+00A0
      these are the space and TAB, LF, VT, FF and CR. */
  predicate IsWhitespace(c: char) {
    if c < '\U{00A0}' then
      c == ' ' || ('\t' <= c <= '\r')
    else
      || c == '\U{00A0}' || c == '\U{1680}' || ('\U{2000}' <= c <= '\U{200A}')
      || c == '\U{2028}' || c == '\U{2029}' || c == '\U{202F}' || c == '\U{205F}'
      || c == '\U{3000}' || c == '\U{FEFF}'
  }

  predicate AllWhitespace(s: string) {
    forall i :: 0 <= i < |s| ==> IsWhitespace(s[i])
  }

  predicate NoWhitespace(s: string) {
    forall i :: 0 <= i < |s| ==> !IsWhitespace(s[i])
  }

  /** Leading whitespace removed. */
  function TrimStart(s: string): (r: string)
    ensures |r| <= |s| && r == s[|s| - |r|..]
    ensures r == [] || !IsWhitespace(r[0])
  {
    if s != [] && IsWhitespace(s[0]) then TrimStart(s[1..]) else s
  }

  /** Trailing whitespace removed. */
  function TrimEnd(s: string): (r: string)
    ensures |r| <= |s| && r == s[..|r|]
    ensures r == [] || !IsWhitespace(r[|r| - 1])
  {
    if s != [] && IsWhitespace(s[|s| - 1]) then TrimEnd(s[..|s| - 1]) else s
  }

  /** `s.trim()`: whitespace removed at both ends; the result neither starts nor
      ends with whitespace. */
  function Trim(s: string): (r: string)
    ensures |r| <= |s|
    ensures r == [] || (!IsWhitespace(r[0]) && !IsWhitespace(r[|r| - 1]))
  {
    var t := TrimStart(s);
    var r := TrimEnd(t);
    assert r != [] ==> r[0] == t[0];
    r
  }

  lemma {:induction false} TrimStartDropsWhitespace(s: string)
    ensures AllWhitespace(s[..|s| - |TrimStart(s)|])
  {
    if s != [] && IsWhitespace(s[0]) {
      TrimStartDropsWhitespace(s[1..]);
      var d := |s| - |TrimStart(s)|;
      forall i | 0 <= i < d ensures IsWhitespace(s[i]) {
        if i > 0 {
          assert s[..d][i] == s[1..][..d - 1][i - 1];
        }
      }
    }
  }

  lemma {:induction false} TrimEndDropsWhitespace(s: string)
    ensures AllWhitespace(s[|TrimEnd(s)|..])
  {
    if s != [] && IsWhitespace(s[|s| - 1]) {
      var init := s[..|s| - 1];
      TrimEndDropsWhitespace(init);
      var n := |TrimEnd(s)|;
      forall i | n <= i < |s| ensures IsWhitespace(s[i]) {
        if i < |s| - 1 {
          assert s[i] == init[n..][i - n];
        }
      }
    }
  }

  /** `r` is the slice of `s` that starts at `i`, and everything around it is
      whitespace. */
  predicate PaddedSlice(s: string, i: int, r: string) {
    && 0 <= i && i + |r| <= |s| && r == s[i..i + |r|]
    && AllWhitespace(s[..i]) && AllWhitespace(s[i + |r|..])
  }

  /** What `trim` keeps is one contiguous slice of the input, and everything it
      drops on either side is whitespace. */
  lemma {:induction false} TrimKeepsSlice(s: string)
    ensures PaddedSlice(s, |s| - |TrimStart(s)|, Trim(s))
  {
    var t := TrimStart(s);
    TrimStartDropsWhitespace(s);
    TrimEndDropsWhitespace(t);
    SliceBetweenPadding(s, t, TrimEnd(t));
  }

  /** A prefix `r` of a suffix `t` of `s` is a slice of `s`, and what lies around
      it is what was cut off on either side. */
  lemma SliceBetweenPadding(s: string, t: string, r: string)
    requires |t| <= |s| && t == s[|s| - |t|..] && |r| <= |t| && r == t[..|r|]
    requires AllWhitespace(s[..|s| - |t|]) && AllWhitespace(t[|r|..])
    ensures PaddedSlice(s, |s| - |t|, r)
  {
    assert t[|r|..] == s[|s| - |t| + |r|..];
  }

  // ---------------------------------------------------------------- case

  predicate IsLowerAscii(c: char) {
    'a' <= c <= 'z'
  }

  /** `toUpperCase` on one character, for the ASCII letters. */
  function UpperChar(c: char): (u: char)
    ensures !IsLowerAscii(u)
    ensures !IsLowerAscii(c) ==> u == c
    ensures IsLowerAscii(c) ==> 'A' <= u <= 'Z' && u as int - 'A' as int == c as int - 'a' as int
  {
    if IsLowerAscii(c) then (c as int - 32) as char else c
  }

  lemma UpperKeepsWhitespace(c: char)
    ensures IsWhitespace(UpperChar(c)) <==> IsWhitespace(c)
  {
  }

  /** `s.toUpperCase()`, character by character; no lower-case ASCII letter remains. */
  function ToUpper(s: string): (r: string)
    ensures |r| == |s|
    ensures forall i :: 0 <= i < |s| ==> r[i] == UpperChar(s[i])
  {
    if s == [] then [] else [UpperChar(s[0])] + ToUpper(s[1..])
  }

  /** The form every identifier is compared in: no surrounding whitespace and no
      lower-case ASCII letter. */
  predicate IsNormalized(k: string) {
    && (k == [] || (!IsWhitespace(k[0]) && !IsWhitespace(k[|k| - 1])))
    && forall i :: 0 <= i < |k| ==> !IsLowerAscii(k[i])
  }

  /** `s.trim().toUpperCase()`: the key under which identifiers are indexed and
      looked up. */
  function NormalizeKey(s: string): (k: string)
    ensures IsNormalized(k)
    ensures |k| <= |s|
  {
    var t := Trim(s);
    UpperKeepsEnds(t);
    ToUpper(t)
  }

  lemma UpperKeepsEnds(t: string)
    requires t == [] || (!IsWhitespace(t[0]) && !IsWhitespace(t[|t| - 1]))
    ensures IsNormalized(ToUpper(t))
  {
    if t != [] {
      UpperKeepsWhitespace(t[0]);
      UpperKeepsWhitespace(t[|t| - 1]);
    }
  }

  lemma {:induction false} ToUpperFixesUpper(s: string)
    requires forall i :: 0 <= i < |s| ==> !IsLowerAscii(s[i])
    ensures ToUpper(s) == s
  {
    if s != [] {
      ToUpperFixesUpper(s[1..]);
    }
  }

  /** A key is its own normal form exactly when it is normalized; so normalizing
      twice is normalizing once. */
  lemma NormalizedIsFixpoint(k: string)
    ensures NormalizeKey(k) == k <==> IsNormalized(k)
  {
    if IsNormalized(k) {
      assert TrimStart(k) == k;
      assert TrimEnd(k) == k;
      ToUpperFixesUpper(k);
    }
  }

  lemma NormalizeKeyIdempotent(s: string)
    ensures NormalizeKey(NormalizeKey(s)) == NormalizeKey(s)
  {
    NormalizedIsFixpoint(NormalizeKey(s));
  }

  lemma {:induction false} TrimStartSkipsPadding(p: string, s: string)
    requires AllWhitespace(p)
    ensures TrimStart(p + s) == TrimStart(s)
  {
    if p == [] {
      assert p + s == s;
    } else {
      assert (p + s)[0] == p[0];
      assert (p + s)[1..] == p[1..] + s;
      assert AllWhitespace(p[1..]) by {
        forall i | 0 <= i < |p| - 1 ensures IsWhitespace(p[1..][i]) {
          assert p[1..][i] == p[i + 1];
        }
      }
      TrimStartSkipsPadding(p[1..], s);
    }
  }

  lemma {:induction false} TrimEndSkipsPadding(s: string, q: string)
    requires AllWhitespace(q)
    ensures TrimEnd(s + q) == TrimEnd(s)
  {
    if q == [] {
      assert s + q == s;
    } else {
      assert (s + q)[|s + q| - 1] == q[|q| - 1];
      assert (s + q)[..|s + q| - 1] == s + q[..|q| - 1];
      TrimEndSkipsPadding(s, q[..|q| - 1]);
    }
  }

  lemma {:induction false} TrimStartKeepsTail(s: string, q: string)
    requires !AllWhitespace(s)
    ensures TrimStart(s + q) == TrimStart(s) + q
  {
    assert s != [];
    if IsWhitespace(s[0]) {
      assert (s + q)[1..] == s[1..] + q;
      assert !AllWhitespace(s[1..]) by {
        var i :| 0 <= i < |s| && !IsWhitespace(s[i]);
        assert s[1..][i - 1] == s[i];
      }
      TrimStartKeepsTail(s[1..], q);
    }
  }

  /** Whitespace around an identifier never changes its key. */
  lemma NormalizeKeyIgnoresPadding(p: string, s: string, q: string)
    requires AllWhitespace(p) && AllWhitespace(q)
    ensures NormalizeKey(p + s + q) == NormalizeKey(s)
  {
    TrimIgnoresPadding(p, s, q);
  }

  lemma {:induction false} TrimIgnoresPadding(p: string, s: string, q: string)
    requires AllWhitespace(p) && AllWhitespace(q)
    ensures Trim(p + s + q) == Trim(s)
  {
    TrimIsEndOfStart(p + s + q);
    TrimIsEndOfStart(s);
    TrimStartSkipsLeadingPadding(p, s, q);
    TrimIgnoresTrailingPadding(s, q);
  }

  lemma {:induction false} TrimStartSkipsLeadingPadding(p: string, s: string, q: string)
    requires AllWhitespace(p)
    ensures TrimStart(p + s + q) == TrimStart(s + q)
  {
    assert p + s + q == p + (s + q);
    TrimStartSkipsPadding(p, s + q);
  }

  lemma {:induction false} TrimIgnoresTrailingPadding(s: string, q: string)
    requires AllWhitespace(q)
    ensures TrimEnd(TrimStart(s + q)) == TrimEnd(TrimStart(s))
  {
    if AllWhitespace(s) {
      AllWhitespaceAppend(s, q);
      TrimStartOfWhitespace(s + q);
      TrimStartOfWhitespace(s);
    } else {
      TrimStartKeepsTail(s, q);
      TrimEndSkipsPadding(TrimStart(s), q);
    }
  }

  lemma TrimIsEndOfStart(s: string)
    ensures Trim(s) == TrimEnd(TrimStart(s))
  {
  }

  lemma AllWhitespaceAppend(s: string, q: string)
    requires AllWhitespace(s) && AllWhitespace(q)
    ensures AllWhitespace(s + q)
  {
  }

  lemma TrimStartOfWhitespace(s: string)
    requires AllWhitespace(s)
    ensures TrimStart(s) == []
  {
  }

  lemma {:induction false} TrimStartCommutesUpper(s: string)
    ensures TrimStart(ToUpper(s)) == ToUpper(TrimStart(s))
  {
    if s != [] {
      UpperKeepsWhitespace(s[0]);
      assert ToUpper(s)[0] == UpperChar(s[0]);
      assert ToUpper(s)[1..] == ToUpper(s[1..]);
      TrimStartCommutesUpper(s[1..]);
    }
  }

  lemma {:induction false} TrimEndCommutesUpper(s: string)
    ensures TrimEnd(ToUpper(s)) == ToUpper(TrimEnd(s))
  {
    if s != [] {
      UpperKeepsWhitespace(s[|s| - 1]);
      assert ToUpper(s)[|s| - 1] == UpperChar(s[|s| - 1]);
      assert ToUpper(s)[..|s| - 1] == ToUpper(s[..|s| - 1]);
      TrimEndCommutesUpper(s[..|s| - 1]);
    }
  }

  /** Identifiers that differ only in the case of ASCII letters share a key. */
  lemma NormalizeKeyIgnoresCase(s: string, t: string)
    requires |s| == |t|
    requires forall i :: 0 <= i < |s| ==> UpperChar(s[i]) == UpperChar(t[i])
    ensures NormalizeKey(s) == NormalizeKey(t)
  {
    TrimStartCommutesUpper(s);
    TrimEndCommutesUpper(TrimStart(s));
    TrimStartCommutesUpper(t);
    TrimEndCommutesUpper(TrimStart(t));
    assert ToUpper(s) == ToUpper(t);
  }

  // ---------------------------------------------------------------- numbers

  predicate IsDigit(c: char) {
    '0' <= c <= '9'
  }

  function DigitChar(d: nat): (c: char)
    requires d < 10
    ensures IsDigit(c)
  {
    ('0' as int + d) as char
  }

  /** The decimal digits of `n`, most significant first, without leading zeros. */
  function NatString(n: nat): (r: string)
    ensures r != []
    ensures forall i :: 0 <= i < |r| ==> IsDigit(r[i])
    ensures r[0] == '0' ==> n == 0
  {
    if n < 10 then [DigitChar(n)] else NatString(n / 10) + [DigitChar(n % 10)]
  }

  /** `n.toString()` for an integral number: a minus sign for negatives, then the digits. */
  function DecimalString(n: int): (r: string)
    ensures r != [] && NoWhitespace(r) && IsNormalized(r)
  {
    if n < 0 then "-" + NatString(-n) else NatString(n)
  }

  /** The value of a string of decimal digits. */
  function ParseNat(s: string): nat
    requires forall i :: 0 <= i < |s| ==> IsDigit(s[i])
  {
    if s == [] then 0 else ParseNat(s[..|s| - 1]) * 10 + DigitValue(s[|s| - 1])
  }

  function DigitValue(c: char): (d: nat)
    requires IsDigit(c)
    ensures d < 10
  {
    c as int - '0' as int
  }

  /** The digits `toString` prints read back as the number printed. */
  lemma {:induction false} NatStringRoundTrip(n: nat)
    ensures ParseNat(NatString(n)) == n
  {
    if n >= 10 {
      var r := NatString(n);
      assert r[..|r| - 1] == NatString(n / 10);
      NatStringRoundTrip(n / 10);
    }
  }

  /** A number's text is already a key: numeric identifiers are matched verbatim. */
  lemma NumberKeyIsVerbatim(n: int)
    ensures NormalizeKey(DecimalString(n)) == DecimalString(n)
  {
    NormalizedIsFixpoint(DecimalString(n));
  }

  // ---------------------------------------------------------------- join

  /** `fragments.join("")`. */
  function Concat(fragments: seq<string>): string {
    if fragments == [] then "" else fragments[0] + Concat(fragments[1..])
  }

  lemma {:induction false} ConcatAppend(a: seq<string>, b: seq<string>)
    ensures Concat(a + b) == Concat(a) + Concat(b)
  {
    if a == [] {
      assert a + b == b;
    } else {
      assert (a + b)[0] == a[0];
      assert (a + b)[1..] == a[1..] + b;
      ConcatAppend(a[1..], b);
    }
  }

  /** Joining yields the empty string exactly when every fragment is empty. */
  lemma {:induction false} ConcatEmptyIff(fragments: seq<string>)
    ensures Concat(fragments) == "" <==> forall i :: 0 <= i < |fragments| ==> fragments[i] == ""
  {
    if fragments != [] {
      ConcatEmptyIff(fragments[1..]);
      assert forall i :: 1 <= i < |fragments| ==> fragments[i] == fragments[1..][i - 1];
    }
  }
}
