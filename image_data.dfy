/** What the handler does to a screenshot's base64 text before decoding it
    (server.js:107-112): it sniffs the image format from the raw text, then strips
    one leading data URI header (RFC 2397) and every whitespace character. */
module ImageData {
  import JsText

  datatype Format = Png | Jpeg

  /** The base64 text of the first bytes of the PNG file signature. */
  const PngSignature := "iVBORw0KGgo"

  /** The base64 text of the first bytes of a JPEG file (SOI marker). */
  const JpegSignature := "/9j/"

  /** The format tag chosen from the raw, undecoded text: png when the text starts
      with the PNG signature, jpeg otherwise (a JPEG signature only confirms the
      default). */
  function DetectFormat(raw: string): (f: Format)
    ensures f == Png <==> PngSignature <= raw
  {
    if PngSignature <= raw then Png
    else if JpegSignature <= raw then Jpeg
    else Jpeg
  }

  /** A text starting with the JPEG signature is tagged jpeg. */
  lemma JpegSignatureIsJpeg(raw: string)
    requires JpegSignature <= raw
    ensures DetectFormat(raw) == Jpeg
  {
    assert raw[0] == '/';
  }

  // ---------------------------------------------------------------- data URI

  /** The characters of the regular-expression class `\w`. */
  predicate IsWordChar(c: char) {
    ('A' <= c <= 'Z') || ('a' <= c <= 'z') || ('0' <= c <= '9') || c == '_'
  }

  predicate IsWord(w: string) {
    forall i :: 0 <= i < |w| ==> IsWordChar(w[i])
  }

  /** The length of the longest prefix of `s` made of word characters. */
  function WordRun(s: string): (n: nat)
    ensures n <= |s| && IsWord(s[..n])
    ensures n < |s| ==> !IsWordChar(s[n])
  {
    if s != [] && IsWordChar(s[0]) then
      var n := 1 + WordRun(s[1..]);
      assert forall i :: 1 <= i < n ==> s[..n][i] == s[1..][..n - 1][i - 1];
      n
    else 0
  }

  const DataUriHead := "data:image/"
  const Base64Marker := ";base64,"

  /** The length of the match of `^data:image\/\w+;base64,` at the start of `s`, or
      0 when there is none. `\w+` is greedy and `;` is not a word character, so
      the pattern matches exactly when the longest word run after the head is
      non-empty and followed by the marker. */
  function DataUriPrefixLength(s: string): (n: nat)
    ensures n <= |s|
    ensures n > 0 ==>
      && |DataUriHead| + |Base64Marker| < n
      && s[..|DataUriHead|] == DataUriHead
      && IsWord(s[|DataUriHead|..n - |Base64Marker|])
      && s[n - |Base64Marker|..n] == Base64Marker
  {
    if DataUriHead <= s then
      var w := WordRun(s[|DataUriHead|..]);
      var afterWord := |DataUriHead| + w;
      if w > 0 && Base64Marker <= s[afterWord..] then
        assert s[|DataUriHead|..afterWord] == s[|DataUriHead|..][..w];
        afterWord + |Base64Marker|
      else 0
    else 0
  }

  /** `s.replace(/^data:image\/\w+;base64,/, "")`: at most one header, and only
      at the very start, is removed. */
  function StripDataUri(s: string): (r: string)
    ensures |r| <= |s| && r == s[|s| - |r|..]
  {
    s[DataUriPrefixLength(s)..]
  }

  /** The header the pattern matches, for a format word `w`. */
  function DataUri(w: string): string {
    DataUriHead + w + Base64Marker
  }

  /** The greedy run stops exactly at the first non-word character. */
  lemma {:induction false} WordRunStopsAt(w: string, tail: string)
    requires IsWord(w) && tail != [] && !IsWordChar(tail[0])
    ensures WordRun(w + tail) == |w|
  {
    if w == [] {
      assert w + tail == tail;
    } else {
      assert (w + tail)[0] == w[0];
      assert (w + tail)[1..] == w[1..] + tail;
      assert IsWord(w[1..]) by {
        forall i | 0 <= i < |w[1..]| ensures IsWordChar(w[1..][i]) {
          assert w[1..][i] == w[i + 1];
        }
      }
      WordRunStopsAt(w[1..], tail);
    }
  }

  /** A well-formed header in front of a payload is removed, leaving exactly the
      payload; together with the contract of `DataUriPrefixLength` (whatever is
      removed is such a header) this states that the pattern is matched exactly. */
  lemma StripMatchingHeader(w: string, payload: string)
    requires w != [] && IsWord(w)
    ensures StripDataUri(DataUri(w) + payload) == payload
  {
    var s := DataUri(w) + payload;
    var h := |DataUriHead|;
    assert s[..h] == DataUriHead;
    var rest := s[h..];
    assert rest == w + (Base64Marker + payload);
    WordRunStopsAt(w, Base64Marker + payload);
    assert s[h + |w|..] == Base64Marker + payload;
    assert s[h + |w| + |Base64Marker|..] == payload;
  }

  /** Only the first of two headers is removed. */
  lemma StripRemovesOneHeader(w: string, v: string, payload: string)
    requires w != [] && IsWord(w)
    ensures StripDataUri(DataUri(w) + DataUri(v) + payload) == DataUri(v) + payload
  {
    assert DataUri(w) + DataUri(v) + payload == DataUri(w) + (DataUri(v) + payload);
    StripMatchingHeader(w, DataUri(v) + payload);
  }

  /** A header that does not sit at position 0, for instance behind leading
      whitespace, is not removed. */
  lemma StripNeedsHeaderAtStart(s: string)
    requires s != [] && s[0] != 'd'
    ensures StripDataUri(s) == s
  {
    assert |s| < |DataUriHead| || s[..|DataUriHead|] != DataUriHead by {
      if |DataUriHead| <= |s| {
        assert s[..|DataUriHead|][0] == s[0];
      }
    }
  }

  // ---------------------------------------------------------------- whitespace

  /** `s.replace(/\s/g, "")`: every whitespace character removed, the others kept
      in order. */
  function RemoveWhitespace(s: string): (r: string)
    ensures |r| <= |s| && JsText.NoWhitespace(r)
  {
    if s == [] then ""
    else if JsText.IsWhitespace(s[0]) then RemoveWhitespace(s[1..])
    else [s[0]] + RemoveWhitespace(s[1..])
  }

  lemma {:induction false} RemoveWhitespaceAppend(a: string, b: string)
    ensures RemoveWhitespace(a + b) == RemoveWhitespace(a) + RemoveWhitespace(b)
  {
    if a == [] {
      assert a + b == b;
    } else {
      assert (a + b)[0] == a[0];
      assert (a + b)[1..] == a[1..] + b;
      RemoveWhitespaceAppend(a[1..], b);
    }
  }

  /** Removal changes a text exactly when the text contains whitespace; so
      removing twice is removing once. */
  lemma {:induction false} RemoveWhitespaceFixes(s: string)
    ensures RemoveWhitespace(s) == s <==> JsText.NoWhitespace(s)
  {
    if s != [] {
      RemoveWhitespaceFixes(s[1..]);
      if JsText.IsWhitespace(s[0]) {
        assert |RemoveWhitespace(s)| < |s|;
      } else {
        assert JsText.NoWhitespace(s) <==> JsText.NoWhitespace(s[1..]) by {
          if JsText.NoWhitespace(s[1..]) {
            forall i | 0 <= i < |s| ensures !JsText.IsWhitespace(s[i]) {
              if i > 0 { assert s[i] == s[1..][i - 1]; }
            }
          }
        }
      }
    }
  }

  // ---------------------------------------------------------------- cleaning

  /** The text that is base64-decoded: header first, then whitespace, removed. */
  function Clean(raw: string): (r: string)
    ensures JsText.NoWhitespace(r) && |r| <= |raw|
  {
    RemoveWhitespace(StripDataUri(raw))
  }

  /** A payload behind one well-formed header is decoded from the payload alone,
      less its whitespace. */
  lemma CleanDataUri(w: string, payload: string)
    requires w != [] && IsWord(w)
    ensures Clean(DataUri(w) + payload) == RemoveWhitespace(payload)
  {
    StripMatchingHeader(w, payload);
  }

  /** A header holds no whitespace, so whitespace removal leaves it intact. */
  lemma DataUriHasNoWhitespace(w: string)
    requires IsWord(w)
    ensures RemoveWhitespace(DataUri(w)) == DataUri(w)
  {
    var d := DataUri(w);
    forall i | 0 <= i < |d| ensures !JsText.IsWhitespace(d[i]) {
      if |DataUriHead| <= i < |DataUriHead| + |w| {
        assert d[i] == w[i - |DataUriHead|];
      }
    }
    RemoveWhitespaceFixes(d);
  }

  /** The header is stripped before the whitespace is: one leading whitespace
      character keeps the header, and it is decoded as part of the payload. */
  lemma LeadingWhitespaceKeepsHeader(c: char, w: string, payload: string)
    requires JsText.IsWhitespace(c) && IsWord(w)
    ensures Clean([c] + DataUri(w) + payload) == DataUri(w) + RemoveWhitespace(payload)
  {
    var d := DataUri(w);
    var t := d + payload;
    assert [c] + d + payload == [c] + t;
    calc {
      Clean([c] + t);
      { StripNeedsHeaderAtStart([c] + t); }
      RemoveWhitespace([c] + t);
      { RemoveLeadingWhitespace(c, t); }
      RemoveWhitespace(t);
      { RemoveWhitespaceAppend(d, payload); }
      RemoveWhitespace(d) + RemoveWhitespace(payload);
      { DataUriHasNoWhitespace(w); }
      d + RemoveWhitespace(payload);
    }
  }

  lemma RemoveLeadingWhitespace(c: char, t: string)
    requires JsText.IsWhitespace(c)
    ensures RemoveWhitespace([c] + t) == RemoveWhitespace(t)
  {
    assert ([c] + t)[1..] == t;
  }

  /** Sniffing precedes stripping: a PNG sent as a data URI is tagged jpeg, even
      though the text that is decoded starts with the PNG signature. */
  lemma DataUriPngTaggedJpeg(payload: string)
    requires PngSignature <= payload
    ensures DetectFormat(DataUri("png") + payload) == Jpeg
    ensures PngSignature <= StripDataUri(DataUri("png") + payload)
  {
    var s := DataUri("png") + payload;
    assert s[..|JpegSignature|][0] == 'd';
    StripMatchingHeader("png", payload);
  }
}
