/**
 The decisions `main` takes before and around the translation of each file:
 which API key to use, the default request and token limits, which directory
 entries are translated, when the program exits early, and the loop that goes
 on after a file fails. The configuration map, the directory walk and the
 outcome of each translation are inputs.
 */
module Main {
  import RateLimiting

  /** A value read from the YAML configuration. */
  datatype Value = Null | Bool(b: bool) | Int(i: int) | Str(s: string)

  type Config = map<string, Value>

  /** Python truthiness: `None`, `False`, `0` and the empty string are false. */
  predicate Truthy(v: Value) {
    match v
    case Null => false
    case Bool(b) => b
    case Int(i) => i != 0
    case Str(s) => s != ""
  }

  /** `config.get(key, default)`. */
  function Get(config: Config, key: string, default: Value): Value {
    if key in config then config[key] else default
  }

  /** `config.get("provider", "openai")`. */
  function Provider(config: Config): Value {
    Get(config, "provider", Str("openai"))
  }

  /** Why the configuration is refused: no usable API key for this provider. */
  datatype ConfigError = MissingApiKey(provider: Value)

  datatype Result<T> = Ok(value: T) | Err(error: ConfigError)

  /**
   The API key: for provider "gemini" the `gemini_api_key`, or `openai_api_key`
   when that one is missing or falsy; for any other provider `openai_api_key`.
   A missing or falsy key is a configuration error.
   */
  function ResolveApiKey(config: Config): Result<Value> {
    var provider := Provider(config);
    var key :=
      if provider == Str("gemini") then
        var gemini := Get(config, "gemini_api_key", Null);
        if !Truthy(gemini) then Get(config, "openai_api_key", Null) else gemini
      else
        Get(config, "openai_api_key", Null);
    if !Truthy(key) then Err(MissingApiKey(provider)) else Ok(key)
  }

  /** With no "provider" entry the provider is "openai". */
  lemma ProviderDefaultsToOpenAi(config: Config)
    requires "provider" !in config
    ensures Provider(config) == Str("openai")
  {
  }

  /**
   A resolved key is truthy and is the value stored under one of the two key
   names; a refusal names the provider.
   */
  lemma ResolvedKeyComesFromConfig(config: Config)
    ensures ResolveApiKey(config).Ok? ==>
              && Truthy(ResolveApiKey(config).value)
              && (|| ("gemini_api_key" in config && ResolveApiKey(config).value == config["gemini_api_key"])
                  || ("openai_api_key" in config && ResolveApiKey(config).value == config["openai_api_key"]))
    ensures ResolveApiKey(config).Err? ==> ResolveApiKey(config).error == MissingApiKey(Provider(config))
  {
  }

  /**
   The key is found exactly when the provider's own key is truthy or, for
   "gemini" only, the OpenAI key is.
   */
  lemma ApiKeyFoundIff(config: Config)
    ensures ResolveApiKey(config).Ok? <==>
              || (Provider(config) == Str("gemini") && Truthy(Get(config, "gemini_api_key", Null)))
              || Truthy(Get(config, "openai_api_key", Null))
  {
  }

  /** For "gemini", a truthy `gemini_api_key` wins over `openai_api_key`. */
  lemma GeminiKeyPreferred(config: Config)
    requires Provider(config) == Str("gemini")
    requires "gemini_api_key" in config && Truthy(config["gemini_api_key"])
    ensures ResolveApiKey(config) == Ok(config["gemini_api_key"])
  {
  }

  /** For "gemini" with no usable own key, the result is whatever `openai_api_key` gives. */
  lemma GeminiFallsBackToOpenAi(config: Config)
    requires Provider(config) == Str("gemini")
    requires !Truthy(Get(config, "gemini_api_key", Null))
    ensures ResolveApiKey(config) == if Truthy(Get(config, "openai_api_key", Null))
                                     then Ok(config["openai_api_key"])
                                     else Err(MissingApiKey(Str("gemini")))
  {
  }

  /** For any provider other than "gemini", `gemini_api_key` plays no part. */
  lemma OtherProvidersIgnoreGeminiKey(config: Config, v: Value)
    requires Provider(config) != Str("gemini")
    ensures ResolveApiKey(config["gemini_api_key" := v]) == ResolveApiKey(config)
  {
    assert Provider(config["gemini_api_key" := v]) == Provider(config);
    assert Get(config["gemini_api_key" := v], "openai_api_key", Null) == Get(config, "openai_api_key", Null);
  }

  /** `rpm_limit` and `tpm_limit`, each 0 when absent. */
  function Limits(config: Config): (Value, Value) {
    (Get(config, "rpm_limit", Int(0)), Get(config, "tpm_limit", Int(0)))
  }

  /**
   With neither limit configured both are 0, and a rate limiter built with those
   caps never blocks: its first evaluation admits, whatever its deques hold.
   */
  lemma AbsentLimitsNeverBlock(config: Config, times: seq<int>, events: seq<RateLimiting.Event>, now: int, est: int, window: int)
    requires "rpm_limit" !in config && "tpm_limit" !in config
    ensures Limits(config) == (Int(0), Int(0))
    ensures RateLimiting.Decide(times, events, now, est, Limits(config).0.i, Limits(config).1.i, window) == RateLimiting.Admitted
  {
  }

  // ---------------------------------------------------------------------------
  // Files to process

  /** ASCII lower case of one character. */
  function LowerChar(c: char): char {
    if 'A' <= c <= 'Z' then (c as int + 32) as char else c
  }

  /** `str.lower()`, on the ASCII letters (see README). */
  function Lower(s: string): (r: string)
    ensures |r| == |s|
  {
    seq(|s|, i requires 0 <= i < |s| => LowerChar(s[i]))
  }

  predicate StartsWith(s: string, prefix: string) {
    |prefix| <= |s| && s[..|prefix|] == prefix
  }

  predicate EndsWith(s: string, suffix: string) {
    |suffix| <= |s| && s[|s| - |suffix|..] == suffix
  }

  /** A walked file is translated when its lower-cased name ends with ".docx" and it is not an Office lock file ("~$..."). */
  predicate IsDocxCandidate(name: string) {
    EndsWith(Lower(name), ".docx") && !StartsWith(name, "~$")
  }

  /** The extension is matched whatever its case. */
  lemma DocxExtensionAnyCase(stem: string, ext: string)
    requires |ext| == 5 && Lower(ext) == ".docx"
    ensures IsDocxCandidate(stem + ext) <==> !StartsWith(stem, "~$")
  {
    var name := stem + ext;
    assert Lower(name)[|name| - 5..] == Lower(ext) by {
      forall i | 0 <= i < 5 ensures Lower(name)[|name| - 5..][i] == Lower(ext)[i] {
        assert name[|stem| + i] == ext[i];
      }
    }
    if |stem| >= 2 {
      assert name[..2] == stem[..2];
    } else if |stem| == 1 {
      assert name[..2] == [stem[0], ext[0]];
      assert ext[0] == '.' by {
        assert Lower(ext)[0] == LowerChar(ext[0]) == '.';
      }
    } else {
      assert name[..2] == ext[..2];
      assert LowerChar(ext[0]) == '.';
    }
  }

  /** Lock files are never translated, whatever their extension. */
  lemma LockFilesSkipped(name: string)
    requires StartsWith(name, "~$")
    ensures !IsDocxCandidate(name)
  {
  }

  /** A name whose last five characters do not lower-case to ".docx" is not translated. */
  lemma OtherExtensionsSkipped(name: string)
    requires |name| < 5 || Lower(name[|name| - 5..]) != ".docx"
    ensures !IsDocxCandidate(name)
  {
    assert |name| >= 5 ==> Lower(name[|name| - 5..]) == Lower(name)[|name| - 5..];
  }

  /** `os.path.join(root, name)` for POSIX paths. */
  function Join(root: string, name: string): string {
    if StartsWith(name, "/") then name
    else if root == [] || EndsWith(root, "/") then root + name
    else root + "/" + name
  }

  /** One step of `os.walk`: a directory, its sub-directories and its files. */
  datatype WalkStep = WalkStep(root: string, dirs: seq<string>, files: seq<string>)

  /** The joined paths of the candidate files of one directory, in listing order. */
  function SelectIn(root: string, names: seq<string>): seq<string> {
    if names == [] then []
    else SelectIn(root, names[..|names| - 1])
         + (if IsDocxCandidate(names[|names| - 1]) then [Join(root, names[|names| - 1])] else [])
  }

  /** The files of a directory input, in walk order. */
  function SelectDocx(walk: seq<WalkStep>): seq<string> {
    if walk == [] then []
    else SelectDocx(walk[..|walk| - 1]) + SelectIn(walk[|walk| - 1].root, walk[|walk| - 1].files)
  }

  /** Selection within a directory keeps listing order: it distributes over concatenation. */
  lemma {:induction false} SelectInConcat(root: string, a: seq<string>, b: seq<string>)
    ensures SelectIn(root, a + b) == SelectIn(root, a) + SelectIn(root, b)
    decreases |b|
  {
    if b == [] {
      assert a + b == a;
    } else {
      var b' := b[..|b| - 1];
      assert (a + b)[..|a + b| - 1] == a + b';
      SelectInConcat(root, a, b');
    }
  }

  /** Selection over a walk keeps walk order: it distributes over concatenation. */
  lemma {:induction false} SelectDocxConcat(a: seq<WalkStep>, b: seq<WalkStep>)
    ensures SelectDocx(a + b) == SelectDocx(a) + SelectDocx(b)
    decreases |b|
  {
    if b == [] {
      assert a + b == a;
    } else {
      var b' := b[..|b| - 1];
      assert (a + b)[..|a + b| - 1] == a + b';
      SelectDocxConcat(a, b');
    }
  }

  /** Every path selected from a directory is the join of a candidate name listed there. */
  lemma {:induction false} SelectInSound(root: string, names: seq<string>, p: string)
    requires p in SelectIn(root, names)
    ensures exists j :: 0 <= j < |names| && IsDocxCandidate(names[j]) && p == Join(root, names[j])
    decreases |names|
  {
    var init := names[..|names| - 1];
    if p in SelectIn(root, init) {
      SelectInSound(root, init, p);
      var j :| 0 <= j < |init| && IsDocxCandidate(init[j]) && p == Join(root, init[j]);
      assert names[j] == init[j];
    } else {
      assert IsDocxCandidate(names[|names| - 1]) && p == Join(root, names[|names| - 1]);
    }
  }

  /** Every candidate name listed in a directory is selected, joined with the directory's root. */
  lemma {:induction false} SelectInComplete(root: string, names: seq<string>, j: nat)
    requires j < |names| && IsDocxCandidate(names[j])
    ensures Join(root, names[j]) in SelectIn(root, names)
    decreases |names|
  {
    var init := names[..|names| - 1];
    if j < |init| {
      SelectInComplete(root, init, j);
      assert init[j] == names[j];
    }
  }

  /** Every path selected from a walk is the join of a candidate file listed by some step, with that step's root. */
  lemma {:induction false} SelectDocxSound(walk: seq<WalkStep>, p: string)
    requires p in SelectDocx(walk)
    ensures exists i, j :: 0 <= i < |walk| && 0 <= j < |walk[i].files|
                           && IsDocxCandidate(walk[i].files[j]) && p == Join(walk[i].root, walk[i].files[j])
    decreases |walk|
  {
    var init := walk[..|walk| - 1];
    var last := walk[|walk| - 1];
    if p in SelectDocx(init) {
      SelectDocxSound(init, p);
      var i, j :| 0 <= i < |init| && 0 <= j < |init[i].files|
                  && IsDocxCandidate(init[i].files[j]) && p == Join(init[i].root, init[i].files[j]);
      assert walk[i] == init[i];
    } else {
      SelectInSound(last.root, last.files, p);
      var j :| 0 <= j < |last.files| && IsDocxCandidate(last.files[j]) && p == Join(last.root, last.files[j]);
      assert walk[|walk| - 1].files[j] == last.files[j];
    }
  }

  /** Every candidate file listed by a step of the walk is selected, joined with that step's root. */
  lemma {:induction false} SelectDocxComplete(walk: seq<WalkStep>, i: nat, j: nat)
    requires i < |walk| && j < |walk[i].files| && IsDocxCandidate(walk[i].files[j])
    ensures Join(walk[i].root, walk[i].files[j]) in SelectDocx(walk)
    decreases |walk|
  {
    var init := walk[..|walk| - 1];
    if i < |init| {
      SelectDocxComplete(init, i, j);
      assert init[i] == walk[i];
    } else {
      SelectInComplete(walk[i].root, walk[i].files, j);
    }
  }

  /** The nested loops over the walk that build `files_to_process` for a directory input. */
  method CollectFiles(walk: seq<WalkStep>) returns (files: seq<string>)
    ensures files == SelectDocx(walk)
  {
    files := [];
    for d := 0 to |walk|
      invariant files == SelectDocx(walk[..d])
    {
      var step := walk[d];
      for j := 0 to |step.files|
        invariant files == SelectDocx(walk[..d]) + SelectIn(step.root, step.files[..j])
      {
        var file := step.files[j];
        if IsDocxCandidate(file) {
          files := files + [Join(step.root, file)];
        }
        assert step.files[..j + 1][..j] == step.files[..j];
      }
      assert step.files[..|step.files|] == step.files;
      assert walk[..d + 1][..d] == walk[..d];
    }
    assert walk[..|walk|] == walk;
  }

  /** What the input path turned out to be. */
  datatype InputKind = Directory(walk: seq<WalkStep>) | ExistingFile | Missing

  /** Either the files to translate, or an early exit with a status code. */
  datatype Plan = Translate(files: seq<string>) | Exit(code: int)

  /**
   `files_to_process`, or the early exit: a directory with no candidate file
   exits 0, a missing input exits 1, an existing file that is not a directory
   is translated whatever its extension.
   */
  method PlanFiles(inputFile: string, input: InputKind) returns (plan: Plan)
    ensures plan == Exit(0) <==> input.Directory? && SelectDocx(input.walk) == []
    ensures plan == Exit(1) <==> input.Missing?
    ensures input.Directory? && SelectDocx(input.walk) != [] ==> plan == Translate(SelectDocx(input.walk))
    ensures input.ExistingFile? ==> plan == Translate([inputFile])
    ensures plan.Translate? ==> plan.files != []
  {
    if input.Directory? {
      var files := CollectFiles(input.walk);
      if files == [] {
        return Exit(0);
      }
      plan := Translate(files);
    } else {
      if input.Missing? {
        return Exit(1);
      }
      plan := Translate([inputFile]);
    }
  }

  // ---------------------------------------------------------------------------
  // The translation loop

  /** The recorded outcome of one file: translated, or failed and skipped. */
  datatype FileResult = Completed(path: string) | Failed(path: string)

  /** What each file's attempt yields when `succeeded` says whether its translation raised. */
  function Attempts(files: seq<string>, succeeded: string -> bool): seq<FileResult> {
    if files == [] then []
    else Attempts(files[..|files| - 1], succeeded)
         + [if succeeded(files[|files| - 1]) then Completed(files[|files| - 1]) else Failed(files[|files| - 1])]
  }

  function Paths(report: seq<FileResult>): seq<string> {
    if report == [] then [] else Paths(report[..|report| - 1]) + [report[|report| - 1].path]
  }

  /**
   A failure does not stop the loop: every file is attempted exactly once and
   in order, whichever attempts fail, and the i-th entry records whether the
   i-th file's translation succeeded.
   */
  lemma {:induction false} EveryFileAttemptedOnce(files: seq<string>, succeeded: string -> bool)
    ensures Paths(Attempts(files, succeeded)) == files
    ensures |Attempts(files, succeeded)| == |files|
    ensures forall i :: 0 <= i < |files| ==>
              (Attempts(files, succeeded)[i].Completed? <==> succeeded(files[i]))
    decreases |files|
  {
    if files != [] {
      var init := files[..|files| - 1];
      EveryFileAttemptedOnce(init, succeeded);
      var r := Attempts(files, succeeded);
      assert r[..|r| - 1] == Attempts(init, succeeded);
      assert files == init + [files[|files| - 1]];
      forall i | 0 <= i < |files| ensures r[i].Completed? <==> succeeded(files[i]) {
        if i < |init| {
          assert r[i] == Attempts(init, succeeded)[i] && files[i] == init[i];
        }
      }
    }
  }

  /** The per-file loop: try each file, record a failure and go on to the next. */
  method TranslateAll(files: seq<string>, succeeded: string -> bool) returns (report: seq<FileResult>)
    ensures report == Attempts(files, succeeded)
  {
    report := [];
    for idx := 0 to |files|
      invariant report == Attempts(files[..idx], succeeded)
    {
      var docPath := files[idx];
      if succeeded(docPath) {
        report := report + [Completed(docPath)];
      } else {
        // the exception is caught and the loop continues with the next file
        report := report + [Failed(docPath)];
      }
      assert files[..idx + 1][..idx] == files[..idx];
    }
    assert files[..|files|] == files;
  }

  /** How a run of `main` ends. */
  datatype RunOutcome =
    | ConfigFailure(error: ConfigError)
    | EarlyExit(code: int)
    | Finished(report: seq<FileResult>)

  /**
   `main` after the configuration is loaded: resolve the key (refusing before any
   file is touched), plan the files, then translate each one.
   */
  method Run(config: Config, inputFile: string, input: InputKind, succeeded: string -> bool) returns (out: RunOutcome)
    ensures out.ConfigFailure? <==> ResolveApiKey(config).Err?
    ensures out.ConfigFailure? ==> out.error == MissingApiKey(Provider(config))
    ensures ResolveApiKey(config).Ok? && input.Missing? ==> out == EarlyExit(1)
    ensures ResolveApiKey(config).Ok? && input.Directory? && SelectDocx(input.walk) == [] ==> out == EarlyExit(0)
    ensures ResolveApiKey(config).Ok? && input.Directory? && SelectDocx(input.walk) != [] ==>
              out == Finished(Attempts(SelectDocx(input.walk), succeeded))
    ensures ResolveApiKey(config).Ok? && input.ExistingFile? ==> out == Finished(Attempts([inputFile], succeeded))
  {
    var apiKey := ResolveApiKey(config);
    if apiKey.Err? {
      return ConfigFailure(apiKey.error);
    }
    var plan := PlanFiles(inputFile, input);
    if plan.Exit? {
      return EarlyExit(plan.code);
    }
    var report := TranslateAll(plan.files, succeeded);
    out := Finished(report);
  }
}
