# mikrus CLI: identifier validation and the `generate` command

This project models the security boundary of the mikrus scaffolding CLI in
Dafny and proves properties of it.

The boundary is `validateAndSanitizeInput`. It takes the raw name given to
`generate` and either returns the trimmed name or throws one of eight fixed
errors. Its checks run in a fixed order: missing or not a string; empty after
trimming; `..` anywhere; absolute path; shell metacharacters; reserved
file-system characters; longer than 100 characters; not matching
`^[a-zA-Z0-9_-]+$`. The first check that fails decides the message.

Around the validator the project models two more things:

- `utils.validateIdentifier`, which turns "throws or not" into a boolean.
- The `generate` command's `run`. It has its own copy of the validator. It
  calls the template generator with `model.ts.ejs`, the target
  `models/<name>-model.ts` and the props `{name}`. On success it prints
  `Generated file at …`. On any error it prints
  `Security validation failed: <message>` and exits with code 1.

Files:

- `js_string.dfy` (module `JsString`): ECMAScript `trim`, `includes` and
  `startsWith` over strings of Unicode scalar values.
  - `IsWS` is ECMAScript's WhiteSpace plus LineTerminator. That set includes
    NO-BREAK SPACE and U+FEFF, and is not limited to ASCII.
  - The general lemmas about the validator (`Accepted`, `Idempotent` and
    the lemmas for each reason) use only one fact about this set: letters,
    digits, `_` and `-` are not whitespace. The examples also use which of
    their own characters are whitespace (' ' and U+FEFF are, '.', '/' and
    '@' are not).
- `utils.dfy` (module `Utils`): the raw input, the reasons and their messages,
  the character classes, the validator, `validateIdentifier`, and lemmas about
  them.
  - The validator is split into two functions. `ValidateAndSanitizeInput`
    runs the first check and the trim. `CheckTrimmed` runs the remaining
    checks on the trimmed string.
- `generate.dfy` (module `GenerateCommand`): the command file's own copy of
  the validator, written as one chain like the source. It also holds the
  command's `run`.
  - `Run` is a method. It takes the generator as an abstract function from
    the call it receives to its outcome (resolved, or rejected with an
    `Error` message).
  - It returns a record of what the command did: the generator calls, the
    `info` lines, the `error` lines, and whether the process exited, with
    which code.

The raw input is `Absent` (`undefined` or `null`), `NonString` (for example
`123`) or `Str(s)`. In JavaScript `""` is falsy, so the empty string gets the
"required" message. Only a non-empty, all-whitespace string gets "cannot be
empty".

Two consequences of the code that are easy to miss:

- The trim is `String.prototype.trim`, not an ASCII-only trim. It strips all
  ECMAScript whitespace at the ends, U+FEFF and U+00A0 included, so
  `"\uFEFFname"` is accepted as `name`. A U+FEFF inside a name is rejected
  by the pattern check.
- The command fixes its target as `models/<name>-model.ts` and leaves the
  substitution to `toolbox.template.generate`. The code has no
  output-directory option, no placeholder replacement of its own and no
  unknown-template error.

## Model

| member | source | states |
|---|---|---|
| JsString.Trim | src/utils.ts:18 | `trim` removes only whitespace, and only at the two ends: the result is a substring `s[k..k+|r|]` with a whitespace-only prefix and suffix around it, and it neither starts nor ends with whitespace |
| JsString.TrimOfTrimmed | src/utils.ts:18 | a string that neither starts nor ends with whitespace is its own trim |
| JsString.TrimIdempotent | src/utils.ts:18 | trimming twice is trimming once |
| JsString.TrimEmptyIff | src/utils.ts:18-23 | the trim is empty exactly when every character is whitespace |
| JsString.TrimPadded | src/utils.ts:18 | trimming `p + t + q`, with `p` and `q` all whitespace and `t` trimmed, gives exactly `t` |
| JsString.DotDotAnywhere | src/utils.ts:26-30 | `includes("..")` holds exactly when two adjacent characters are both '.', at any position |
| JsString.ContainsPrefix | src/utils.ts:26-30 | a string that includes `p + q` includes `p`, so the "../" and "..\\" tests are subsumed by the ".." test |
| Utils.ValidateAndSanitizeInput | src/utils.ts:11-77 | an accepted value is a sanitized identifier: 1 to 100 characters, each an ASCII letter, digit, '_' or '-' |
| Utils.CheckTrimmed | src/utils.ts:20-76 | the checks after trimming: an accepted string is returned unchanged and is a sanitized identifier, and these checks never give the "required" reason |
| Utils.ValidateIdentifier | src/utils.ts:88-95 | `validateIdentifier(name)` is true exactly when the trim of `name` is a sanitized identifier |
| Utils.Accepted | src/utils.ts:18-76 | a value is accepted if and only if it is a string whose trim is 1 to 100 identifier characters, and then the result is that trim |
| Utils.RequiredIff | src/utils.ts:13-15 | "required and must be a string" is the reason exactly for a missing value, a non-string and `""` |
| Utils.EmptyIff | src/utils.ts:17-23 | "cannot be empty" is the reason exactly for a non-empty string made only of whitespace |
| Utils.PathTraversalIff | src/utils.ts:26-34 | the path-traversal reason is given exactly when the trimmed string contains "..", and "../" or "..\\" inside a string means ".." is inside it |
| Utils.AbsolutePathMeans | src/utils.ts:37-45 | an absolute-path rejection means the trimmed string starts with '/', '\\' or a letter and ':', and has no ".." |
| Utils.InvalidCharactersMeans | src/utils.ts:47-53 | a shell-character rejection means the trimmed string holds one of ``; \| & $ ` < > ' " \`` and has neither ".." nor an absolute start |
| Utils.ReservedOnlyBeyondShellSet | src/utils.ts:47-59 | a reserved-character rejection happens only for strings with ':', '/', '?' or '*', no shell character, no ".." and no absolute start; '<', '>', '"' and '\|' are always caught earlier, and an absolute path never gets this reason |
| Utils.TooLongMeans | src/utils.ts:61-66 | a too-long rejection means more than 100 characters, no "..", no absolute start and no shell or reserved character |
| Utils.InvalidPatternMeans | src/utils.ts:68-74 | a pattern rejection means 1 to 100 characters, no "..", no absolute start, no shell or reserved character anywhere, and some character outside `[a-zA-Z0-9_-]`; with the other reason lemmas and `Accepted` this fixes the result of every input |
| Utils.Idempotent | src/utils.ts:18-76 | re-validating an accepted result gives the same result |
| Utils.LengthBoundary | src/utils.ts:61-66 | 100 'a's are accepted unchanged; 101 'a's are too long |
| Utils.DriveLetterBeatsShellCharacter | src/utils.ts:36-53 | `C:\x` gets the absolute-path reason although it also holds a shell character |
| Utils.PipeIsAShellCharacter | src/utils.ts:47-59 | `file\|name` gets the shell-character reason although '\|' is also reserved |
| Utils.StarIsReserved | src/utils.ts:55-59 | `file*name` gets the reserved-character reason |
| Utils.TooLongBeatsPattern | src/utils.ts:61-74 | a 150-character string holding '@' is too long, not a pattern failure |
| Utils.IdentifierExample | src/utils.ts:68-76 | `valid-name` is accepted as itself |
| Utils.TrimmedExample | src/utils.ts:18 | ` trimmed ` is accepted as `trimmed` |
| Utils.ByteOrderMarkIsTrimmed | src/utils.ts:18 | a leading U+FEFF is stripped by the trim, so `"\uFEFFname"` is accepted as `name` |
| Utils.BlankExample | src/utils.ts:20-23 | three spaces get "cannot be empty" |
| Utils.LeadingTraversalExample | src/utils.ts:26-34 | `../malicious` gets the path-traversal reason |
| Utils.EmbeddedTraversalExample | src/utils.ts:26-34 | `some..sequence` gets the path-traversal reason |
| Utils.AbsolutePathExample | src/utils.ts:36-45 | `/etc/passwd` gets the absolute-path reason |
| Utils.ShellCommandExample | src/utils.ts:47-53 | `file; rm -rf /` gets the shell-character reason |
| Utils.SpacesInsideExample | src/utils.ts:68-74 | `file with spaces` gets the pattern reason |
| GenerateCommand.ValidateAndSanitizeInput | src/commands/generate.ts:6-72 | the command's own copy of the validator: an accepted value is a sanitized identifier |
| GenerateCommand.CopiesAgree | src/commands/generate.ts:6-72 | the command's copy and the one in `src/utils.ts` give the same result on every input, messages included |
| GenerateCommand.LengthBoundary | src/commands/generate.ts:56-61 | in the command's copy, 100 'a's are accepted and 101 are too long |
| GenerateCommand.IdentifierTargetConfined | src/commands/generate.ts:90 | for a sanitized identifier, `models/<name>-model.ts` starts with `models/`, has no other '/', no '\\', no ':' and no "..", and its file name is `<name>-model.ts` |
| GenerateCommand.TargetConfined | src/commands/generate.ts:84-90 | every name the command's validator accepts yields a target confined to `models/` |
| GenerateCommand.Run | src/commands/generate.ts:77-99 | a rejected name means no generator call, one error `Security validation failed: <message>` and exit code 1. An accepted name means exactly one call with `model.ts.ejs`, `models/<name>-model.ts` and `{name}`. If that call resolves, the only output is the info `Generated file at ` + that same target and there is no exit. If it rejects, the only output is the failure line with its message and the exit code is 1. Every target is confined to `models/` |

## Left out

- Lengths count Unicode scalar values, not UTF-16 code units. A name is
  accepted only if it is ASCII, so this changes no acceptance. For a string
  with characters outside the Basic Multilingual Plane it can change which
  rejection wins, too-long or pattern.
- ECMAScript whitespace is written out from Unicode's space-separator
  category as it stands today. A later Unicode version could add characters.
- A generator that rejects with something other than an `Error` is not
  modelled. For a rejection with a string, `err.message` is `undefined` and
  the command prints `Security validation failed: undefined` and exits
  with 1. For a rejection with `null` or `undefined`, reading `.message`
  throws a `TypeError` out of the `catch`: nothing is printed and
  `process.exit` is not called.
- The generator is a function of the call it receives. Its real effects
  (reading `model.ts.ejs`, rendering it, writing the file) are left out, and
  so is EJS substitution.
- `Run`: asynchronous execution is not modelled, and neither is what happens
  after `process.exit(1)`. The process ends, or in the tests the mocked exit
  throws. The model records the exit and stops. A `print.info` that throws is
  not modelled.
- `utils.success` and `utils.error` only print to the console and exit the
  process.
- `utils.checkApiConnectivity` needs the network, an environment variable and
  a 5-second timeout.
- `src/version.ts` (environment, a `git` subprocess and a cache), `src/cli.ts`,
  `mod.ts`, `src/commands/mikrus.ts` and `src/extensions/cli-extension.ts` are
  CLI wiring and printing.
- The 64-character `validateIdentifier` of the compiled toolbox extension,
  which its tests exercise, is not part of this model. Its code is not among
  the sources, and it conflicts with the 100-character rule.
- `models/user-model.ts` and `models/testfile-model.ts` are generated output,
  not repository logic.
