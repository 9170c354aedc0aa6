/** `FileCopyApp.read_file`: what is read from one file, turned into the text
    that stands for it in the copied blob. The file system is not modelled;
    what opening and reading would do is given as a `TextRead` value. */
module Reader {
  import opened PyStr
  import opened Wrappers

  /** What reading the file in binary mode does. */
  datatype BinaryRead = BytesRead(count: nat) | BinaryFailed(message: string)

  /** What reading the file as UTF-8 text does: its decoded text, a decoding
      failure (after which the file is read again in binary mode), or any other
      failure (a missing file, a permission error), with `str(e)` of the
      exception. */
  datatype TextRead = Decoded(text: string) | NotUtf8(fallback: BinaryRead) | TextFailed(message: string)

  const BinaryPrefix: string := "[Binary content - "
  const BinarySuffix: string := " bytes]"
  const ErrorPrefix: string := "Error reading file: "

  /** The text that stands for a binary file of `count` bytes. */
  function Placeholder(count: nat): (r: string)
    ensures StartsWith(r, BinaryPrefix)
    ensures |r| == |BinaryPrefix| + |NatToString(count)| + |BinarySuffix|
  {
    BinaryPrefix + NatToString(count) + BinarySuffix
  }

  /** The text that stands for a file that could not be read. */
  function ErrorText(message: string): (r: string)
    ensures StartsWith(r, ErrorPrefix) && r[|ErrorPrefix|..] == message
  {
    ErrorPrefix + message
  }

  /** `read_file`: the decoded text, else the binary placeholder, else the error
      text. It never fails, so the callers' `except` branches never run. */
  function ReadFile(r: TextRead): string {
    match r
    case Decoded(text) => text
    case NotUtf8(BytesRead(count)) => Placeholder(count)
    case NotUtf8(BinaryFailed(message)) => ErrorText(message)
    case TextFailed(message) => ErrorText(message)
  }

  /** A canonical decimal numeral: non-empty, digits only, no leading zero. */
  predicate IsNumeral(s: string) {
    s != [] && (forall i :: 0 <= i < |s| ==> IsDigit(s[i])) && (s[0] == '0' ==> s == "0")
  }

  /** Reads the byte count back out of a placeholder text, if `s` is one. */
  function ParsePlaceholder(s: string): (r: Option<nat>)
    ensures r.Some? ==> |s| > |BinaryPrefix| + |BinarySuffix|
  {
    if |s| > |BinaryPrefix| + |BinarySuffix| && StartsWith(s, BinaryPrefix)
       && s[|s| - |BinarySuffix|..] == BinarySuffix
       && IsNumeral(s[|BinaryPrefix|..|s| - |BinarySuffix|])
    then Some(DigitsValue(s[|BinaryPrefix|..|s| - |BinarySuffix|]))
    else None
  }

  /** The placeholder of a binary file gives its byte count back. */
  lemma ParsePlaceholderOf(count: nat)
    ensures ParsePlaceholder(Placeholder(count)) == Some(count)
  {
    var s := Placeholder(count);
    var digits := NatToString(count);
    assert s[|BinaryPrefix|..|s| - |BinarySuffix|] == digits;
    assert s[|s| - |BinarySuffix|..] == BinarySuffix;
    NatToStringValue(count);
  }

  /** Any text that parses as a placeholder is the placeholder of that count. */
  lemma PlaceholderOfParse(s: string)
    requires ParsePlaceholder(s).Some?
    ensures s == Placeholder(ParsePlaceholder(s).value)
  {
    var digits := s[|BinaryPrefix|..|s| - |BinarySuffix|];
    NumeralRoundTrip(digits);
    assert s == s[..|BinaryPrefix|] + digits + s[|s| - |BinarySuffix|..];
  }

  /** A canonical numeral is `str` of its value. */
  lemma {:induction false} NumeralRoundTrip(s: string)
    requires IsNumeral(s)
    ensures NatToString(DigitsValue(s)) == s
    decreases |s|
  {
    if |s| > 1 {
      var init := s[..|s| - 1];
      assert init[0] == s[0];
      NumeralPositive(init);
      NumeralRoundTrip(init);
      assert s == init + [s[|s| - 1]];
    }
  }

  /** A numeral that does not start with `0` has a positive value. */
  lemma {:induction false} NumeralPositive(s: string)
    requires s != [] && (forall i :: 0 <= i < |s| ==> IsDigit(s[i])) && s[0] != '0'
    ensures DigitsValue(s) >= 1
    decreases |s|
  {
    if |s| > 1 {
      NumeralPositive(s[..|s| - 1]);
    }
  }

  /** Different byte counts give different placeholders. */
  lemma PlaceholderInjective(m: nat, n: nat)
    requires Placeholder(m) == Placeholder(n)
    ensures m == n
  {
    ParsePlaceholderOf(m);
    ParsePlaceholderOf(n);
  }

  /** The error texts carry the exception's message after a fixed prefix, so
      the message can be read back. */
  lemma ErrorTextInverse(r: TextRead)
    requires r.TextFailed? || (r.NotUtf8? && r.fallback.BinaryFailed?)
    ensures StartsWith(ReadFile(r), ErrorPrefix)
    ensures ReadFile(r)[|ErrorPrefix|..] == (if r.TextFailed? then r.message else r.fallback.message)
  {
  }

  /** No placeholder starts like an error text, so the two failure kinds are
      told apart by the text alone. */
  lemma PlaceholderIsNotError(count: nat, message: string)
    ensures Placeholder(count) != ErrorText(message)
  {
    assert Placeholder(count)[0] == '[' && ErrorText(message)[0] == 'E';
  }

  /** A text file whose content is itself a placeholder reads the same as a
      binary file: the copied text does not say which one it was. */
  lemma TextLooksBinary(count: nat)
    ensures ReadFile(Decoded(Placeholder(count))) == ReadFile(NotUtf8(BytesRead(count)))
  {
  }
}
