/** What a download sees of the network: the outcome of one `fetch`, the
    `Content-Length` header read through JavaScript's `parseInt(_, 10)`, and
    progress fractions kept as exact rational pairs instead of doubles. */
module Http {
  import opened Common
  import opened Decimal

  /** The outcome of `fetch(url)`: either the promise rejects (connection
      error), or a response arrives with an optional `Content-Length` header
      and a body that the stream reader delivers as a sequence of chunks. */
  datatype Fetch =
    | NetworkFailure
    | Fetched(contentLength: Option<string>, body: seq<seq<byte>>)

  /** What a download can throw. `NetworkError` is the rejected `fetch`;
      `RangeError` is thrown by `new Uint8Array(n)` for a negative `n` and by
      `Uint8Array.prototype.set` when the source does not fit at the offset. */
  datatype DownloadError = NetworkError | RangeError

  /** A progress value `num / den` as handed to the progress callback. */
  datatype Fraction = Fraction(num: nat, den: nat) {
    predicate InUnitInterval() { 0 < den && num <= den }
    predicate IsOne() { 0 < den && num == den }
    /** `this <= that` as rationals (both denominators positive). */
    predicate AtMost(that: Fraction) { num * that.den <= that.num * den }
  }

  /** The characters ECMAScript's `parseInt` skips before the number: white
      space (including every space separator) and line terminators. */
  predicate IsJsWhitespace(c: char) {
    || c == '\t' || c == '\n' || c == '\U{000B}' || c == '\U{000C}' || c == '\r'
    || c == ' ' || c == '\U{00A0}' || c == '\U{1680}'
    || ('\U{2000}' <= c <= '\U{200A}')
    || c == '\U{2028}' || c == '\U{2029}' || c == '\U{202F}' || c == '\U{205F}'
    || c == '\U{3000}' || c == '\U{FEFF}'
  }

  function TrimStart(s: string): (t: string)
    ensures |t| <= |s| && t == s[|s| - |t|..]
    ensures |t| > 0 ==> !IsJsWhitespace(t[0])
  {
    if |s| > 0 && IsJsWhitespace(s[0]) then TrimStart(s[1..]) else s
  }

  /** `parseInt(s, 10)`: skip leading white space, take an optional sign,
      then the longest run of decimal digits; anything after it is ignored.
      `None` stands for `NaN` (no digit where the number should start). */
  function ParseInt(s: string): (r: Option<int>)
    ensures r.None? <==> LeadingDigits(SplitSign(TrimStart(s)).1) == 0
    ensures r.Some? && r.value < 0 ==> SplitSign(TrimStart(s)).0
    ensures r.Some? && !SplitSign(TrimStart(s)).0 ==> r.value >= 0
  {
    ParseTrimmed(TrimStart(s))
  }

  /** `parseInt` after the leading white space. */
  function ParseTrimmed(t: string): Option<int>
  {
    var (negative, u) := SplitSign(t);
    match LeadingNumber(u)
    case None => None
    case Some(v) => if negative then Some(-(v as int)) else Some(v as int)
  }

  /** An optional leading `-` or `+`: whether it was a minus, and the text
      after it. */
  function SplitSign(t: string): (r: (bool, string))
    ensures r.0 ==> |t| > 0 && t[0] == '-'
    ensures r.1 == t || (|t| > 0 && r.1 == t[1..])
  {
    if |t| > 0 && (t[0] == '-' || t[0] == '+') then (t[0] == '-', t[1..]) else (false, t)
  }

  /** The value of the digit run at the start of `u`; `None` when `u` does
      not start with a digit. */
  function LeadingNumber(u: string): (r: Option<nat>)
    ensures r.None? <==> LeadingDigits(u) == 0
  {
    var k := LeadingDigits(u);
    if k == 0 then None else Some(ValueOf(u[..k]))
  }

  /** `totalSize` of the downloaders, read as the branch it selects:
      `contentLength ? parseInt(contentLength, 10) : 0` followed by
      `if (totalSize)`. `None` is the unsized, whole-body path (header
      absent, empty, `NaN` or zero); `Some(n)` is the chunked path. */
  function DeclaredSize(contentLength: Option<string>): (r: Option<int>)
    ensures r.Some? ==> r.value != 0
    ensures contentLength.None? ==> r.None?
  {
    match contentLength
    case None => None
    case Some(h) =>
      if h == "" then None
      else match ParseInt(h)
        case None => None
        case Some(n) => if n == 0 then None else Some(n)
  }

  /** A header holding a rendered number, possibly followed by text that does
      not continue the number, parses to that number. */
  lemma ParseIntRender(n: nat, rest: string)
    requires |rest| == 0 || !IsDigit(rest[0])
    ensures ParseInt(Render(n) + rest) == Some(n)
  {
    var s := Render(n) + rest;
    assert s[0] == Render(n)[0];
    DigitIsNotSpace(s[0]);
    TrimStartKeeps(s);
    LeadingNumberOfRender(n, rest);
  }

  /** A rendered number, followed by anything but a digit, is read whole. */
  lemma LeadingNumberOfRender(n: nat, rest: string)
    requires |rest| == 0 || !IsDigit(rest[0])
    ensures LeadingNumber(Render(n) + rest) == Some(n)
  {
    LeadingDigitsOfRender(n, rest);
    ValueOfRender(n);
  }

  lemma DigitIsNotSpace(c: char)
    requires IsDigit(c)
    ensures !IsJsWhitespace(c)
  {
  }

  /** Nothing is trimmed from a string that starts with a non-space. */
  lemma TrimStartKeeps(s: string)
    requires |s| > 0 && !IsJsWhitespace(s[0])
    ensures TrimStart(s) == s
  {
  }

  /** A minus sign in front of a rendered number negates it. */
  lemma ParseIntNegative(n: nat)
    ensures ParseInt("-" + Render(n)) == Some(-(n as int))
  {
    var s := "-" + Render(n);
    TrimStartKeeps(s);
    assert s[1..] == Render(n) + "";
    LeadingNumberOfRender(n, "");
  }

  /** A string with no decimal digit at all is `NaN`. */
  lemma ParseIntNoDigits(s: string)
    requires forall i :: 0 <= i < |s| ==> !IsDigit(s[i])
    ensures ParseInt(s) == None
  {
    var t := TrimStart(s);
    var u := if |t| > 0 && (t[0] == '-' || t[0] == '+') then t[1..] else t;
    if |u| > 0 {
      assert u[0] == s[|s| - |u|];
    }
  }

  /** The header selects the chunked path exactly when it renders a nonzero
      number: a positive length is read back exactly, and `"0"` falls back to
      the whole-body path. */
  lemma DeclaredSizeOfRendered(n: nat)
    ensures DeclaredSize(Some(Render(n))) == if n == 0 then None else Some(n)
  {
    var h := Render(n);
    assert h + "" == h;
    ParseIntRender(n, "");
    assert |h| > 0;
    DeclaredSizeOfNumber(h, n);
  }

  /** A non-empty header that parses to `n` selects the chunked path exactly
      when `n` is not zero. */
  lemma DeclaredSizeOfNumber(h: string, n: int)
    requires h != "" && ParseInt(h) == Some(n)
    ensures DeclaredSize(Some(h)) == if n == 0 then None else Some(n)
  {
  }

  /** A ten-megabyte `Content-Length` is read exactly. */
  lemma TenMegabyteHeader()
    ensures DeclaredSize(Some("10485760")) == Some(10485760)
  {
    assert Render(1) == "1";
    assert Render(10) == "10";
    assert Render(104) == "104";
    assert Render(1048) == "1048";
    assert Render(10485) == "10485";
    assert Render(104857) == "104857";
    assert Render(1048576) == "1048576";
    assert Render(10485760) == "10485760";
    DeclaredSizeOfRendered(10485760);
  }

  /** Leading white space before the number is skipped. */
  lemma ParseIntSkipsSpace(s: string)
    ensures ParseInt(" " + s) == ParseInt(s)
  {
    TrimStartSpace(s);
  }

  lemma TrimStartSpace(s: string)
    ensures TrimStart(" " + s) == TrimStart(s)
  {
    var t := " " + s;
    assert t[0] == ' ' && t[1..] == s;
  }

  /** `"0"` and an empty value select the whole-body path. */
  lemma ZeroHeader()
    ensures DeclaredSize(Some("0")) == None
    ensures DeclaredSize(Some("")) == None
  {
    assert Render(0) == "0";
    DeclaredSizeOfRendered(0);
  }

  /** So does a value that is not a number (`parseInt` gives `NaN`). */
  lemma NonNumericHeader()
    ensures DeclaredSize(Some("abc")) == None
  {
    var h := "abc";
    assert h[0] == 'a' && h[1] == 'b' && h[2] == 'c';
    assert forall i :: 0 <= i < |h| ==> !IsDigit(h[i]);
    ParseIntNoDigits(h);
    NotANumber(h);
  }

  /** A non-empty header that is `NaN` selects the whole-body path. */
  lemma NotANumber(h: string)
    requires h != "" && ParseInt(h) == None
    ensures DeclaredSize(Some(h)) == None
  {
  }

  /** Leading space and trailing text around the digits are ignored. */
  lemma PaddedHeader()
    ensures DeclaredSize(Some(" 42 bytes")) == Some(42)
  {
    var tail := Render(42) + " bytes";
    ParseIntRender(42, " bytes");
    ParseIntSkipsSpace(tail);
    PaddedSpelling();
    DeclaredSizeOfNumber(" " + tail, 42);
  }

  lemma PaddedSpelling()
    ensures " 42 bytes" == " " + (Render(42) + " bytes")
  {
    assert Render(42) == "42";
  }

  /** A negative length selects the chunked path with a negative size. */
  lemma NegativeHeader()
    ensures DeclaredSize(Some("-5")) == Some(-5)
  {
    var digits := Render(5);
    assert digits == "5";
    assert "-5" == "-" + digits;
    ParseIntNegative(5);
  }
}
