/** The string helpers of the utilities module: escaping text for use inside
    a regular expression, normalising an e-mail address, and choosing a
    content type from a file name. */
module Utils {
  import opened Text

  // ---------------------------------------------------------------------------
  // escapeRegex
  // ---------------------------------------------------------------------------

  /** The characters of the class `[-/\\^$*+?.()|[\]{}]`. */
  predicate IsRegexSpecial(c: char) {
    c == '-' || c == '/' || c == '\\' || c == '^' || c == '$' || c == '*' || c == '+' || c == '?' ||
    c == '.' || c == '(' || c == ')' || c == '|' || c == '[' || c == ']' || c == '{' || c == '}'
  }

  function CountSpecial(s: string): nat {
    if s == [] then 0 else (if IsRegexSpecial(s[0]) then 1 else 0) + CountSpecial(s[1..])
  }

  /** `input.replace(/[-/\\^$*+?.()|[\]{}]/g, "\\$&")`: a backslash before every special character. */
  function EscapeRegex(input: string): (r: string)
    ensures |r| == |input| + CountSpecial(input)
  {
    if input == [] then []
    else if IsRegexSpecial(input[0]) then ['\\', input[0]] + EscapeRegex(input[1..])
    else [input[0]] + EscapeRegex(input[1..])
  }

  /** Drop the backslash of every escape pair. */
  function Unescape(s: string): (r: string)
    ensures |r| <= |s|
  {
    if |s| >= 2 && s[0] == '\\' then [s[1]] + Unescape(s[2..])
    else if s == [] then []
    else [s[0]] + Unescape(s[1..])
  }

  /** Dropping each inserted backslash gives back the input, backslashes of
      the input included. */
  lemma {:induction false} EscapeRegexRoundTrip(input: string)
    ensures Unescape(EscapeRegex(input)) == input
  {
    if input != [] {
      EscapeRegexRoundTrip(input[1..]);
      var rest := EscapeRegex(input[1..]);
      if IsRegexSpecial(input[0]) {
        assert (['\\', input[0]] + rest)[2..] == rest;
      } else {
        assert ([input[0]] + rest)[1..] == rest;
      }
      assert input == [input[0]] + input[1..];
    }
  }

  /** Characters outside the class pass through unchanged: text without any is its own escape. */
  lemma {:induction false} EscapeRegexPlain(input: string)
    requires forall i :: 0 <= i < |input| ==> !IsRegexSpecial(input[i])
    ensures EscapeRegex(input) == input
  {
    if input != [] {
      EscapeRegexPlain(input[1..]);
      assert input == [input[0]] + input[1..];
    }
  }

  /** Every special character comes out behind a backslash, in order. */
  lemma EscapeRegexExample()
    ensures EscapeRegex("a.b*") == "a\\.b\\*"
  {
  }

  // ---------------------------------------------------------------------------
  // sanitizeEmail
  // ---------------------------------------------------------------------------

  /** `email.trim().toLowerCase()` */
  function SanitizeEmail(email: string): string {
    Lower(Trim(email))
  }

  lemma LowerKeepsWhitespace(c: char)
    ensures IsJsWhitespace(LowerChar(c)) == IsJsWhitespace(c)
  {
  }

  /** The result has no white space at either end, and sanitizing it again changes nothing. */
  lemma SanitizeEmailNormal(email: string)
    ensures var r := SanitizeEmail(email);
            r == [] || (!IsJsWhitespace(r[0]) && !IsJsWhitespace(r[|r| - 1]))
    ensures SanitizeEmail(SanitizeEmail(email)) == SanitizeEmail(email)
  {
    var t := Trim(email);
    var r := Lower(t);
    TrimSlice(email);
    if r != [] {
      LowerKeepsWhitespace(t[0]);
      LowerKeepsWhitespace(t[|t| - 1]);
    }
    TrimUntrimmed(r);
    LowerIdempotent(r);
    LowerOfLower(t);
  }

  lemma LowerIdempotent(r: string)
    requires exists s :: r == Lower(s)
    ensures Lower(r) == r
  {
    var s :| r == Lower(s);
    LowerOfLower(s);
  }

  // ---------------------------------------------------------------------------
  // getContentType
  // ---------------------------------------------------------------------------

  /** `filename.split(".").pop()`: the text after the last '.', or the whole
      name when it has none. */
  function LastSegment(s: string): string {
    s[LastIndexOf(s, '.') + 1..]
  }

  const SpreadsheetType: string := "application/vnd.openxmlformats-officedocument.spreadsheetml.sheet"
  const DefaultType: string := "application/octet-stream"

  /** The switch on the extension. */
  function TypeOfExtension(extension: string): string {
    if extension == "jpg" || extension == "jpeg" then "image/jpeg"
    else if extension == "png" then "image/png"
    else if extension == "pdf" then "application/pdf"
    else if extension == "xls" || extension == "xlsx" then SpreadsheetType
    else DefaultType
  }

  /** getContentType(filename) */
  function GetContentType(filename: string): string {
    TypeOfExtension(Lower(LastSegment(filename)))
  }

  /** Only the text after the last dot counts: whatever precedes it does not. */
  lemma ContentTypeFromLastDot(stem: string, extension: string)
    requires forall i :: 0 <= i < |extension| ==> extension[i] != '.'
    ensures GetContentType(stem + "." + extension) == TypeOfExtension(Lower(extension))
  {
    var s := stem + "." + extension;
    LastIndexOfBehind(stem, '.', extension);
    assert s[|stem| + 1..] == extension;
  }

  /** The lookup ignores case: "A.JPG" and "a.jpg" get the same type. */
  lemma ContentTypeCaseInsensitive(filename: string)
    ensures GetContentType(Lower(filename)) == GetContentType(filename)
  {
    LastSegmentLower(filename);
    LowerOfLower(LastSegment(filename));
  }

  lemma LastSegmentLower(filename: string)
    ensures LastSegment(Lower(filename)) == Lower(LastSegment(filename))
  {
    var k := LastIndexOf(filename, '.');
    LastIndexOfLower(filename, '.');
    LowerSuffix(filename, k + 1);
  }

  /** A mapped extension in capitals is still mapped. */
  lemma ContentTypeCapitals()
    ensures GetContentType("photo.JPG") == "image/jpeg"
  {
    assert "photo" + "." + "JPG" == "photo.JPG";
    ContentTypeFromLastDot("photo", "JPG");
    var r := Lower("JPG");
    assert r[0] == 'j' && r[1] == 'p' && r[2] == 'g';
    assert r == "jpg";
  }

  /** gif is not one of the mapped extensions. */
  lemma ContentTypeGif()
    ensures GetContentType("photo.gif") == DefaultType
  {
    assert "photo" + "." + "gif" == "photo.gif";
    ContentTypeFromLastDot("photo", "gif");
    LowerGif();
    GifUnmapped();
  }

  lemma LowerGif()
    ensures Lower("gif") == "gif"
  {
    var r := Lower("gif");
    assert r[0] == 'g' && r[1] == 'i' && r[2] == 'f';
  }

  lemma GifUnmapped()
    ensures TypeOfExtension("gif") == DefaultType
  {
    assert "gif"[0] != "jpg"[0] && "gif"[0] != "jpeg"[0] && "gif"[0] != "png"[0];
    assert "gif"[0] != "pdf"[0] && "gif"[0] != "xls"[0] && "gif"[0] != "xlsx"[0];
  }

  /** A name without a dot is read as an extension in full. */
  lemma ContentTypeWithoutDot()
    ensures GetContentType("png") == "image/png"
  {
    assert LastIndexOf("png", '.') == -1;
    var r := Lower("png");
    assert r[0] == 'p' && r[1] == 'n' && r[2] == 'g';
    assert r == "png";
  }
}
