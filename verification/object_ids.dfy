/**
 Textual form of object identifiers. The store hands out natural-number ids;
 the HTTP surface renders them as text (`str(file_id)`) and parses request
 paths back (`ObjectId(image_id)`). The model uses decimal text instead of
 the 24-hex-digit ObjectId format. Rendering produces one canonical spelling
 per id (as `str` produces lower-case hex), while parsing accepts every
 spelling of an id: text with leading zeros plays the part of the
 upper-case hex that `ObjectId` also accepts.
 */
module ObjectIds {
  import opened Wrappers

  predicate IsDigit(c: char) {
    '0' <= c <= '9'
  }

  function DigitChar(d: nat): (c: char)
    requires d < 10
    ensures IsDigit(c)
  {
    (d + '0' as int) as char
  }

  function DigitValue(c: char): (d: nat)
    requires IsDigit(c)
    ensures d < 10 && DigitChar(d) == c
  {
    c as int - '0' as int
  }

  predicate AllDigits(s: string) {
    forall i :: 0 <= i < |s| ==> IsDigit(s[i])
  }

  /** Non-empty decimal text without a superfluous leading zero. */
  predicate Canonical(s: string) {
    && |s| >= 1
    && AllDigits(s)
    && (|s| > 1 ==> s[0] != '0')
  }

  /** The number a string of digits denotes, most significant digit first. */
  function Value(s: string): nat
    requires AllDigits(s)
  {
    if |s| == 0 then 0 else Value(s[..|s| - 1]) * 10 + DigitValue(s[|s| - 1])
  }

  /** Renders an id as text, `str(file_id)` in the service. */
  function Render(n: nat): (r: string)
    ensures Canonical(r)
    decreases n
  {
    if n < 10 then [DigitChar(n)] else Render(n / 10) + [DigitChar(n % 10)]
  }

  /** Parses request text into an id; `None` is the malformed-id case. Any non-empty digit string is accepted. */
  function Parse(s: string): (r: Option<nat>)
    ensures r.Some? <==> |s| >= 1 && AllDigits(s)
  {
    if |s| >= 1 && AllDigits(s) then Some(Value(s)) else None
  }

  lemma {:induction false} ValueOfRender(n: nat)
    ensures Value(Render(n)) == n
    decreases n
  {
    if n >= 10 {
      var p := Render(n / 10);
      var r := Render(n);
      assert r[..|r| - 1] == p;
      ValueOfRender(n / 10);
    }
  }

  /** A canonical string with a non-zero leading digit denotes a positive number. */
  lemma {:induction false} PositiveValue(s: string)
    requires Canonical(s) && s[0] != '0'
    ensures Value(s) >= 1
    decreases |s|
  {
    if |s| > 1 {
      var p := s[..|s| - 1];
      assert p[0] == s[0];
      PositiveValue(p);
    }
  }

  lemma {:induction false} RenderOfValue(s: string)
    requires Canonical(s)
    ensures Render(Value(s)) == s
    decreases |s|
  {
    if |s| > 1 {
      var p := s[..|s| - 1];
      assert p[0] == s[0];
      assert Canonical(p);
      PositiveValue(p);
      RenderOfValue(p);
      assert s == p + [s[|s| - 1]];
    }
  }

  /** Parsing a rendered id yields that id. */
  lemma ParseRender(n: nat)
    ensures Parse(Render(n)) == Some(n)
  {
    ValueOfRender(n);
  }

  /** Among canonical texts, the one that parses to `n` is exactly the rendering of `n`. */
  lemma CanonicalSpellingIsRender(s: string, n: nat)
    requires Canonical(s)
    ensures Parse(s) == Some(n) <==> s == Render(n)
  {
    ParseRender(n);
    if Parse(s) == Some(n) {
      RenderOfValue(s);
    }
  }

  /** A leading zero does not change the number a digit string denotes. */
  lemma {:induction false} ValueLeadingZero(t: string)
    requires AllDigits(t)
    ensures AllDigits("0" + t) && Value("0" + t) == Value(t)
    decreases |t|
  {
    var z := "0" + t;
    if |t| > 0 {
      var p := t[..|t| - 1];
      assert z[..|z| - 1] == "0" + p;
      ValueLeadingZero(p);
    }
  }

  /** An id has spellings other than its rendering: the rendering padded with a zero parses to the same id. */
  lemma PaddedSpelling(n: nat)
    ensures "0" + Render(n) != Render(n)
    ensures Parse("0" + Render(n)) == Some(n)
  {
    ValueLeadingZero(Render(n));
    ValueOfRender(n);
    assert |"0" + Render(n)| == |Render(n)| + 1;
  }

  /** Distinct ids have distinct renderings. */
  lemma RenderInjective(a: nat, b: nat)
    ensures Render(a) == Render(b) ==> a == b
  {
    ParseRender(a);
    ParseRender(b);
  }
}
