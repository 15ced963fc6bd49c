/** The identifier validator that guards file generation
    (`validateAndSanitizeInput`) and `utils.validateIdentifier`, which turns
    its accept/throw outcome into a boolean. */
module Utils {
  import opened JsString

  /** The raw value handed to the validator: `undefined` or `null`, a value
      of some other type (such as the number 123), or a string. */
  datatype RawInput = Absent | NonString | Str(s: string)

  /** Why an input was rejected: one case per thrown error, in the order the
      checks run. */
  datatype Reason =
    | Required
    | Empty
    | PathTraversal
    | AbsolutePath
    | InvalidCharacters
    | ReservedCharacters
    | TooLong
    | InvalidPattern

  /** The message of the `Error` thrown for each reason. */
  function Message(reason: Reason): string {
    match reason
    case Required => "Name parameter is required and must be a string"
    case Empty => "Name parameter cannot be empty"
    case PathTraversal => "Path traversal detected. Name parameter cannot contain \"..\" sequences"
    case AbsolutePath => "Absolute paths are not allowed. Name parameter must be a relative filename"
    case InvalidCharacters => "Invalid characters detected. Name parameter cannot contain: ; | & $ ` < > ' \" \\"
    case ReservedCharacters => "Name parameter contains reserved file system characters"
    case TooLong => "Name parameter is too long. Maximum length is 100 characters"
    case InvalidPattern => "Name parameter must contain only letters, numbers, hyphens, and underscores"
  }

  /** The validator returns the sanitized name or throws for a reason. */
  datatype Result = Ok(value: string) | Err(reason: Reason)

  const MaxLength := 100

  predicate IsAsciiLetter(c: char) {
    'a' <= c <= 'z' || 'A' <= c <= 'Z'
  }

  predicate IsAsciiDigit(c: char) {
    '0' <= c <= '9'
  }

  /** A member of the character class `[a-zA-Z0-9_-]`. */
  predicate IsIdentChar(c: char) {
    IsAsciiLetter(c) || IsAsciiDigit(c) || c == '_' || c == '-'
  }

  /** A member of the shell-metacharacter class ``[;|&$`<>'"\\]``. */
  predicate IsDangerous(c: char) {
    c == ';' || c == '|' || c == '&' || c == '$' || c == '`' ||
    c == '<' || c == '>' || c == '\'' || c == '"' || c == '\\'
  }

  /** A member of the reserved file-system class `[<>:"/|?*]`. */
  predicate IsReserved(c: char) {
    c == '<' || c == '>' || c == ':' || c == '"' || c == '/' ||
    c == '|' || c == '?' || c == '*'
  }

  /** `/^[a-zA-Z]:/.test(s)` */
  predicate HasDriveLetterPrefix(s: string) {
    |s| >= 2 && IsAsciiLetter(s[0]) && s[1] == ':'
  }

  predicate IsAbsolute(s: string) {
    StartsWith(s, "/") || StartsWith(s, "\\") || HasDriveLetterPrefix(s)
  }

  /** `/[;|&$`<>'"\\]/.test(s)` */
  predicate HasDangerous(s: string) {
    exists i | 0 <= i < |s| :: IsDangerous(s[i])
  }

  /** `/[<>:"/|?*]/.test(s)` */
  predicate HasReserved(s: string) {
    exists i | 0 <= i < |s| :: IsReserved(s[i])
  }

  /** `/^[a-zA-Z0-9_-]+$/.test(s)` */
  predicate MatchesValidPattern(s: string) {
    |s| >= 1 && forall i :: 0 <= i < |s| ==> IsIdentChar(s[i])
  }

  /** What an accepted name is: 1 to 100 characters, each an ASCII letter,
      digit, underscore or hyphen. */
  predicate IsSanitizedIdentifier(s: string) {
    1 <= |s| <= MaxLength && forall i :: 0 <= i < |s| ==> IsIdentChar(s[i])
  }

  /** `validateAndSanitizeInput`: a missing, non-string or empty value is
      refused; otherwise the checks run on the trimmed value. */
  function ValidateAndSanitizeInput(input: RawInput): (r: Result)
    ensures r.Ok? ==> IsSanitizedIdentifier(r.value)
  {
    match input
    case Absent => Err(Required)
    case NonString => Err(Required)
    case Str(s) =>
      // the empty string is falsy, so it fails the first check
      if s == "" then Err(Required) else CheckTrimmed(Trim(s))
  }

  /** The checks `validateAndSanitizeInput` runs on the trimmed value, in
      source order: the first that fails decides the reason, and a value that
      passes them all is returned as it is. */
  function CheckTrimmed(trimmed: string): (r: Result)
    ensures r.Ok? ==> r.value == trimmed && IsSanitizedIdentifier(trimmed)
    ensures r != Err(Required)
  {
    if |trimmed| == 0 then Err(Empty)
    else if Contains(trimmed, "../") || Contains(trimmed, "..\\") || Contains(trimmed, "..") then Err(PathTraversal)
    else if IsAbsolute(trimmed) then Err(AbsolutePath)
    else if HasDangerous(trimmed) then Err(InvalidCharacters)
    else if HasReserved(trimmed) then Err(ReservedCharacters)
    else if |trimmed| > MaxLength then Err(TooLong)
    else if !MatchesValidPattern(trimmed) then Err(InvalidPattern)
    else Ok(trimmed)
  }

  /** `utils.validateIdentifier`: true exactly when the trimmed name is a
      sanitized identifier. */
  function ValidateIdentifier(name: string): (valid: bool)
    ensures valid <==> IsSanitizedIdentifier(Trim(name))
  {
    Accepted(Str(name));
    ValidateAndSanitizeInput(Str(name)).Ok?
  }

  /** An identifier contains no '.', hence none of the traversal sequences,
      and none of the shell or reserved characters. */
  lemma IdentifierPassesGuards(t: string)
    requires IsSanitizedIdentifier(t)
    ensures !Contains(t, "../") && !Contains(t, "..\\") && !Contains(t, "..")
    ensures !IsAbsolute(t) && !HasDangerous(t) && !HasReserved(t)
  {
    NoDotNoTraversal(t);
    assert t[..1] != "/" && t[..1] != "\\" by { assert t[..1][0] == t[0]; }
  }

  lemma NoDotNoTraversal(t: string)
    requires forall i :: 0 <= i < |t| ==> t[i] != '.'
    ensures !Contains(t, "../") && !Contains(t, "..\\") && !Contains(t, "..")
  {
    if Contains(t, "..") { ContainsChar(t, "..", 0); }
    if Contains(t, "../") { ContainsChar(t, "../", 0); }
    if Contains(t, "..\\") { ContainsChar(t, "..\\", 0); }
  }

  /** Acceptance is exact: a value is accepted iff it is a string whose trim
      is a sanitized identifier, and then the trim is what is returned. */
  lemma Accepted(input: RawInput)
    ensures ValidateAndSanitizeInput(input).Ok? <==> input.Str? && IsSanitizedIdentifier(Trim(input.s))
    ensures ValidateAndSanitizeInput(input).Ok? ==> ValidateAndSanitizeInput(input).value == Trim(input.s)
  {
    if input.Str? && IsSanitizedIdentifier(Trim(input.s)) {
      IdentifierPassesGuards(Trim(input.s));
    }
  }

  /** A missing value, a non-string and the empty string get "required";
      nothing else does. */
  lemma RequiredIff(input: RawInput)
    ensures ValidateAndSanitizeInput(input) == Err(Required) <==> (input.Absent? || input.NonString? || input == Str(""))
  {
  }

  /** Only a non-empty string made entirely of whitespace gets "cannot be
      empty". */
  lemma EmptyIff(input: RawInput)
    ensures ValidateAndSanitizeInput(input) == Err(Empty) <==> (input.Str? && input.s != "" && AllWS(input.s))
  {
    if input.Str? { TrimEmptyIff(input.s); }
  }

  /** A trimmed input with ".." anywhere in it gets the path-traversal
      message, and that message is given for nothing else; the "../" and
      "..\\" tests add nothing to the ".." test. */
  lemma PathTraversalIff(input: RawInput)
    ensures ValidateAndSanitizeInput(input) == Err(PathTraversal) <==> (input.Str? && Contains(Trim(input.s), ".."))
    ensures forall t :: Contains(t, "../") || Contains(t, "..\\") ==> Contains(t, "..")
  {
    forall t | Contains(t, "../") || Contains(t, "..\\") ensures Contains(t, "..") {
      assert ".." + "/" == "../" && ".." + "\\" == "..\\";
      if Contains(t, "../") { ContainsPrefix(t, "..", "/"); } else { ContainsPrefix(t, "..", "\\"); }
    }
    if input.Str? && Contains(Trim(input.s), "..") {
      ContainsChar(Trim(input.s), "..", 0);
    }
  }

  /** An absolute-path rejection means the trimmed input starts with '/',
      '\' or a drive letter and has no "..". */
  lemma AbsolutePathMeans(input: RawInput)
    requires ValidateAndSanitizeInput(input) == Err(AbsolutePath)
    ensures input.Str? && IsAbsolute(Trim(input.s)) && !Contains(Trim(input.s), "..")
  {
  }

  /** A shell-character rejection means the trimmed input holds one of
      ``; | & $ ` < > ' " \`` and passed the traversal and absolute-path
      checks. */
  lemma InvalidCharactersMeans(input: RawInput)
    requires ValidateAndSanitizeInput(input) == Err(InvalidCharacters)
    ensures input.Str? && HasDangerous(Trim(input.s))
    ensures !Contains(Trim(input.s), "..") && !IsAbsolute(Trim(input.s))
  {
  }

  /** The reserved-character rejection is reached only through ':', '/', '?'
      or '*': the other reserved characters are shell characters and are
      caught by the previous check. The traversal and absolute-path checks
      were passed, so an absolute path never gets this reason. */
  lemma ReservedOnlyBeyondShellSet(input: RawInput)
    requires ValidateAndSanitizeInput(input) == Err(ReservedCharacters)
    ensures input.Str? && !HasDangerous(Trim(input.s))
    ensures !Contains(Trim(input.s), "..") && !IsAbsolute(Trim(input.s))
    ensures exists i :: 0 <= i < |Trim(input.s)| && Trim(input.s)[i] in {':', '/', '?', '*'}
  {
    var t := Trim(input.s);
    var i :| 0 <= i < |t| && IsReserved(t[i]);
    assert !IsDangerous(t[i]);
  }

  /** A too-long rejection is given only to inputs that passed every
      character check, so the length check wins over the pattern check. */
  lemma TooLongMeans(input: RawInput)
    requires ValidateAndSanitizeInput(input) == Err(TooLong)
    ensures input.Str? && |Trim(input.s)| > MaxLength
    ensures !Contains(Trim(input.s), "..") && !IsAbsolute(Trim(input.s))
    ensures !HasDangerous(Trim(input.s)) && !HasReserved(Trim(input.s))
  {
  }

  /** A pattern rejection names a string of acceptable length that passed
      every earlier check and holds a character outside `[a-zA-Z0-9_-]`. */
  lemma InvalidPatternMeans(input: RawInput)
    requires ValidateAndSanitizeInput(input) == Err(InvalidPattern)
    ensures input.Str? && 1 <= |Trim(input.s)| <= MaxLength
    ensures !Contains(Trim(input.s), "..") && !IsAbsolute(Trim(input.s))
    ensures !HasDangerous(Trim(input.s)) && !HasReserved(Trim(input.s))
    ensures exists i :: 0 <= i < |Trim(input.s)| && !IsIdentChar(Trim(input.s)[i])
              && !IsDangerous(Trim(input.s)[i]) && !IsReserved(Trim(input.s)[i])
  {
    var t := Trim(input.s);
    var i :| 0 <= i < |t| && !IsIdentChar(t[i]);
    assert !HasDangerous(t) && !HasReserved(t);
  }

  /** Re-validating an accepted name gives it back unchanged. */
  lemma Idempotent(input: RawInput)
    requires ValidateAndSanitizeInput(input).Ok?
    ensures ValidateAndSanitizeInput(Str(ValidateAndSanitizeInput(input).value)) == ValidateAndSanitizeInput(input)
  {
    Accepted(input);
    var v := ValidateAndSanitizeInput(input).value;
    assert IsSanitizedIdentifier(v);
    assert IsIdentChar(v[0]) && IsIdentChar(v[|v| - 1]);
    TrimOfTrimmed(v);
    Accepted(Str(v));
  }

  /** 100 characters are accepted unchanged; 101 are too long. */
  lemma LengthBoundary()
    ensures ValidateAndSanitizeInput(Str(seq(100, _ => 'a'))) == Ok(seq(100, _ => 'a'))
    ensures ValidateAndSanitizeInput(Str(seq(101, _ => 'a'))) == Err(TooLong)
  {
    var a100, a101 := seq(100, _ => 'a'), seq(101, _ => 'a');
    assert Trim(a100) == a100 by { TrimOfTrimmed(a100); }
    assert CheckTrimmed(a100) == Ok(a100) by { IdentifierPassesGuards(a100); }
    assert Trim(a101) == a101 by { TrimOfTrimmed(a101); }
    assert CheckTrimmed(a101) == Err(TooLong) by { QuietPassesGuards(a101); }
  }

  /** "C:\x" holds a shell character, but the absolute-path check comes
      first. */
  lemma DriveLetterBeatsShellCharacter()
    ensures ValidateAndSanitizeInput(Str("C:\\x")) == Err(AbsolutePath)
  {
    var t := "C:\\x";
    assert CheckTrimmed(t) == Err(AbsolutePath) by { NoDotNoTraversal(t); }
    assert Trim(t) == t by { TrimOfTrimmed(t); }
  }

  /** '|' is both a shell and a reserved character; the shell check wins. */
  lemma PipeIsAShellCharacter()
    ensures ValidateAndSanitizeInput(Str("file|name")) == Err(InvalidCharacters)
  {
    var t := "file|name";
    assert CheckTrimmed(t) == Err(InvalidCharacters) by {
      NoDotNoTraversal(t);
      assert t[..1] == "f";
      assert IsDangerous(t[4]);
    }
    assert Trim(t) == t by { TrimOfTrimmed(t); }
  }

  /** '*' is reserved but not a shell character. */
  lemma StarIsReserved()
    ensures ValidateAndSanitizeInput(Str("file*name")) == Err(ReservedCharacters)
  {
    var t := "file*name";
    assert CheckTrimmed(t) == Err(ReservedCharacters) by {
      NoDotNoTraversal(t);
      assert t[..1] == "f";
      assert !HasDangerous(t);
      assert IsReserved(t[4]);
    }
    assert Trim(t) == t by { TrimOfTrimmed(t); }
  }

  /** A 150-character name holding '@' is rejected as too long, not by the
      pattern check. */
  lemma TooLongBeatsPattern()
    ensures ValidateAndSanitizeInput(Str(seq(149, _ => 'a') + "@")) == Err(TooLong)
  {
    var t := seq(149, _ => 'a') + "@";
    assert CheckTrimmed(t) == Err(TooLong) by {
      assert forall i :: 0 <= i < |t| ==> IsQuiet(t[i]);
      QuietPassesGuards(t);
    }
    assert Trim(t) == t by { TrimOfTrimmed(t); }
  }

  /** A name that is already an identifier is returned as is. */
  lemma IdentifierExample()
    ensures ValidateAndSanitizeInput(Str("valid-name")) == Ok("valid-name")
  {
    var t := "valid-name";
    assert CheckTrimmed(t) == Ok(t) by { IdentifierPassesGuards(t); }
    assert Trim(t) == t by { TrimOfTrimmed(t); }
  }

  /** Surrounding whitespace is removed. */
  lemma TrimmedExample()
    ensures ValidateAndSanitizeInput(Str(" trimmed ")) == Ok("trimmed")
  {
    var t := "trimmed";
    assert CheckTrimmed(t) == Ok(t) by { IdentifierPassesGuards(t); }
    assert Trim(" trimmed ") == t by { assert " trimmed " == " " + t + " "; TrimPadded(" ", t, " "); }
  }

  /** U+FEFF is whitespace to `trim`: at the start of a name it is stripped,
      not rejected. */
  lemma ByteOrderMarkIsTrimmed()
    ensures ValidateAndSanitizeInput(Str("\U{FEFF}name")) == Ok("name")
  {
    var t := "name";
    assert CheckTrimmed(t) == Ok(t) by { IdentifierPassesGuards(t); }
    assert Trim("\U{FEFF}name") == t by {
      assert "\U{FEFF}name" == "\U{FEFF}" + t + "";
      TrimPadded("\U{FEFF}", t, "");
    }
  }

  /** Spaces alone are "empty". */
  lemma BlankExample()
    ensures ValidateAndSanitizeInput(Str("   ")) == Err(Empty)
  {
    EmptyIff(Str("   "));
  }

  /** ".." is traversal at the start of a name... */
  lemma LeadingTraversalExample()
    ensures ValidateAndSanitizeInput(Str("../malicious")) == Err(PathTraversal)
  {
    var t := "../malicious";
    assert CheckTrimmed(t) == Err(PathTraversal) by { assert OccursAt(t, "..", 0); }
    assert Trim(t) == t by { TrimOfTrimmed(t); }
  }

  /** ...and inside it. */
  lemma EmbeddedTraversalExample()
    ensures ValidateAndSanitizeInput(Str("some..sequence")) == Err(PathTraversal)
  {
    var t := "some..sequence";
    assert CheckTrimmed(t) == Err(PathTraversal) by { assert OccursAt(t, "..", 4); }
    assert Trim(t) == t by { TrimOfTrimmed(t); }
  }

  lemma AbsolutePathExample()
    ensures ValidateAndSanitizeInput(Str("/etc/passwd")) == Err(AbsolutePath)
  {
    var t := "/etc/passwd";
    assert CheckTrimmed(t) == Err(AbsolutePath) by {
      NoDotNoTraversal(t);
      assert t[..1] == "/";
    }
    assert Trim(t) == t by { TrimOfTrimmed(t); }
  }

  lemma ShellCommandExample()
    ensures ValidateAndSanitizeInput(Str("file; rm -rf /")) == Err(InvalidCharacters)
  {
    var t := "file; rm -rf /";
    assert CheckTrimmed(t) == Err(InvalidCharacters) by {
      NoDotNoTraversal(t);
      assert t[..1] == "f";
      assert IsDangerous(t[4]);
    }
    assert Trim(t) == t by { TrimOfTrimmed(t); }
  }

  lemma SpacesInsideExample()
    ensures ValidateAndSanitizeInput(Str("file with spaces")) == Err(InvalidPattern)
  {
    var t := "file with spaces";
    assert CheckTrimmed(t) == Err(InvalidPattern) by {
      assert forall i :: 0 <= i < |t| ==> IsQuiet(t[i]);
      QuietPassesGuards(t);
      assert !IsIdentChar(t[4]);
    }
    assert Trim(t) == t by { TrimOfTrimmed(t); }
  }

  /** Neither '.', a shell character nor a reserved character. */
  predicate IsQuiet(c: char) {
    c != '.' && !IsDangerous(c) && !IsReserved(c)
  }

  /** A string of quiet characters passes every check up to the length
      check. */
  lemma QuietPassesGuards(t: string)
    requires forall i :: 0 <= i < |t| ==> IsQuiet(t[i])
    ensures !Contains(t, "../") && !Contains(t, "..\\") && !Contains(t, "..")
    ensures !StartsWith(t, "/") && !StartsWith(t, "\\") && !HasDangerous(t) && !HasReserved(t)
  {
    NoDotNoTraversal(t);
    if |t| > 0 { assert t[..1][0] == t[0]; }
  }
}
