/** The `generate` command (alias `g`): it validates its first parameter
    with its own copy of the validator, asks the template generator for
    `models/<name>-model.ts`, and reports the outcome. */
module GenerateCommand {
  import opened JsString
  import opened Utils

  /** This file's own copy of `validateAndSanitizeInput`, written out as a
      single chain of checks. */
  function ValidateAndSanitizeInput(input: RawInput): (r: Result)
    ensures r.Ok? ==> IsSanitizedIdentifier(r.value)
  {
    match input
    case Absent => Err(Required)
    case NonString => Err(Required)
    case Str(s) =>
      if s == "" then Err(Required)
      else
        var trimmed := Trim(s);
        if |trimmed| == 0 then Err(Empty)
        else if Contains(trimmed, "../") || Contains(trimmed, "..\\") || Contains(trimmed, "..") then Err(PathTraversal)
        else if IsAbsolute(trimmed) then Err(AbsolutePath)
        else if HasDangerous(trimmed) then Err(InvalidCharacters)
        else if HasReserved(trimmed) then Err(ReservedCharacters)
        else if |trimmed| > MaxLength then Err(TooLong)
        else if !MatchesValidPattern(trimmed) then Err(InvalidPattern)
        else Ok(trimmed)
  }

  /** The two copies of the validator agree on every input, messages
      included. */
  lemma CopiesAgree(input: RawInput)
    ensures ValidateAndSanitizeInput(input) == Utils.ValidateAndSanitizeInput(input)
  {
  }

  /** The 100-character boundary, as this copy sees it. */
  lemma LengthBoundary()
    ensures ValidateAndSanitizeInput(Str(seq(100, _ => 'a'))) == Ok(seq(100, _ => 'a'))
    ensures ValidateAndSanitizeInput(Str(seq(101, _ => 'a'))) == Err(TooLong)
  {
    Utils.LengthBoundary();
    CopiesAgree(Str(seq(100, _ => 'a')));
    CopiesAgree(Str(seq(101, _ => 'a')));
  }

  /** The props handed to the template. */
  datatype Props = Props(name: string)

  /** One call of `toolbox.template.generate`. */
  datatype GenerateCall = GenerateCall(template: string, target: string, props: Props)

  /** How the awaited generator call ends: it resolves, or it rejects with
      an `Error` whose message is given. */
  datatype Generation = Generated | Failed(message: string)

  /** Whether `process.exit` was called, and with which code. */
  datatype Exit = Running | Exited(code: int)

  /** What the command did, in the order it did it: the generator calls, the
      `print.info` lines, the `print.error` lines, and the exit. */
  datatype Effects = Effects(generateCalls: seq<GenerateCall>, infos: seq<string>, errors: seq<string>, exit: Exit)

  const ModelTemplate := "model.ts.ejs"

  /** The place the model for `name` is generated. */
  function ModelTarget(name: string): string {
    "models/" + name + "-model.ts"
  }

  function FailureLine(message: string): string {
    "Security validation failed: " + message
  }

  /** A path whose only directory is `models/`: no other '/', no '\', no ':'
      and no "..". */
  predicate ConfinedToModels(path: string) {
    && StartsWith(path, "models/")
    && (forall i :: 0 <= i < |path| && path[i] == '/' ==> i == 6)
    && (forall i :: 0 <= i < |path| ==> path[i] != '\\' && path[i] != ':')
    && !Contains(path, "..")
  }

  /** Every accepted name yields a target inside `models/`, and the file name
      there is the name followed by "-model.ts". */
  lemma TargetConfined(input: RawInput)
    requires ValidateAndSanitizeInput(input).Ok?
    ensures ConfinedToModels(ModelTarget(ValidateAndSanitizeInput(input).value))
    ensures ModelTarget(ValidateAndSanitizeInput(input).value)[7..] == ValidateAndSanitizeInput(input).value + "-model.ts"
  {
    IdentifierTargetConfined(ValidateAndSanitizeInput(input).value);
  }

  lemma IdentifierTargetConfined(name: string)
    requires IsSanitizedIdentifier(name)
    ensures ConfinedToModels(ModelTarget(name))
    ensures ModelTarget(name)[7..] == name + "-model.ts"
  {
    var path := ModelTarget(name);
    var n := |name|;
    assert |path| == n + 16;
    assert forall i :: 0 <= i < 7 ==> path[i] == "models/"[i];
    assert forall i :: 7 <= i < 7 + n ==> path[i] == name[i - 7];
    assert forall i :: 7 + n <= i < |path| ==> path[i] == "-model.ts"[i - 7 - n];
    assert path[..7] == "models/";
    assert !Contains(path, "..") by {
      DotDotAnywhere(path);
      forall i | 0 <= i < |path| - 1 && path[i] == '.' ensures path[i + 1] != '.' {
        // the only '.' is the one of ".ts", followed by 't'
        assert i < 7 || i >= 7 + n;
      }
    }
    assert path[7..] == name + "-model.ts";
  }

  /** The command's `run`: validate the first parameter, call the generator
      once with the model template, target and props, and print where the
      file went; any thrown error, from the validator or from the generator,
      is printed as a security-validation failure and ends the process with
      code 1. */
  method Run(first: RawInput, generate: GenerateCall -> Generation) returns (fx: Effects)
    ensures |fx.generateCalls| <= 1
    ensures |fx.infos| + |fx.errors| == 1
    ensures fx.exit == (if fx.errors == [] then Running else Exited(1))
    ensures forall c :: c in fx.generateCalls ==> ConfinedToModels(c.target) && c.template == ModelTemplate
    ensures match ValidateAndSanitizeInput(first)
      case Err(reason) =>
        fx == Effects([], [], [FailureLine(Message(reason))], Exited(1))
      case Ok(name) =>
        && fx.generateCalls == [GenerateCall(ModelTemplate, ModelTarget(name), Props(name))]
        && match generate(fx.generateCalls[0])
           case Generated => fx.infos == ["Generated file at " + ModelTarget(name)] && fx.errors == []
           case Failed(message) => fx.infos == [] && fx.errors == [FailureLine(message)]
  {
    fx := Effects([], [], [], Running);
    var failed := false;
    var message := "";
    var validated := ValidateAndSanitizeInput(first);
    if validated.Ok? {
      var name := validated.value;
      var call := GenerateCall("model.ts.ejs", "models/" + name + "-model.ts", Props(name));
      TargetConfined(first);
      fx := fx.(generateCalls := fx.generateCalls + [call]);
      var outcome := generate(call);
      if outcome.Generated? {
        assert "Generated file at models/" + name + "-model.ts" == "Generated file at " + ModelTarget(name);
        fx := fx.(infos := fx.infos + ["Generated file at models/" + name + "-model.ts"]);
      } else {
        failed, message := true, outcome.message;
      }
    } else {
      failed, message := true, Message(validated.reason);
    }
    if failed {
      fx := fx.(errors := fx.errors + ["Security validation failed: " + message]);
      fx := fx.(exit := Exited(1));
    }
  }
}
