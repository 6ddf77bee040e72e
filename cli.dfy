/**
 * `main`: the fixed-order option gate, then loading and rendering. minimist
 * has already turned the command line into the options below.
 */
module Cli {
  import opened Wrappers
  import opened Loader
  import opened Renderer

  /** The parsed options `main` reads; a string option is `None` when it is undefined. */
  datatype Argv = Argv(help: bool, version: Option<string>, template: Option<string>,
                       contextPath: Option<string>, out: Option<string>, extension: Option<string>,
                       prefix: Option<string>, dryRun: bool)

  /** JavaScript truthiness of a string option: defined and not empty. */
  predicate Given(o: Option<string>)
  {
    o.Some? && o.value != ""
  }

  /** What `main` decides to do from its options. */
  datatype Decision =
    | ShowHelp
    | ShowVersion
    | Missing(option: string)
    | Proceed(template: string, contextPath: string, out: string, extension: string,
              prefix: Option<string>, dryRun: bool)

  /**
   * The chain of early returns at the top of `main`: help wins over
   * everything, version over the required options, a missing option is
   * reported only when neither applies, and `main` goes on with the given
   * values otherwise.
   */
  function Gate(a: Argv): (d: Decision)
    ensures d == ShowHelp <==> a.help
    ensures d == ShowVersion <==> !a.help && Given(a.version)
    ensures d.Missing? ==> !a.help && !Given(a.version)
    ensures d.Proceed? ==> Given(a.template) && Given(a.contextPath) && Given(a.out) && Given(a.extension)
  {
    if a.help then ShowHelp
    else if Given(a.version) then ShowVersion
    else if !Given(a.template) then Missing("template")
    else if !Given(a.contextPath) then Missing("context-path")
    else if !Given(a.out) then Missing("out")
    else if !Given(a.extension) then Missing("extension")
    else Proceed(a.template.value, a.contextPath.value, a.out.value, a.extension.value, a.prefix, a.dryRun)
  }

  /** The required options, in the order `main` checks them. */
  function Required(a: Argv): seq<(string, Option<string>)>
  {
    [("template", a.template), ("context-path", a.contextPath), ("out", a.out), ("extension", a.extension)]
  }

  /**
   * `version` is declared a string option, so a bare `--version` parses to
   * "", which is falsy: without `--template` the run reports the missing
   * template instead of printing the version.
   */
  lemma BareVersionIsIgnored(a: Argv)
    requires !a.help && a.version == Some("") && !Given(a.template)
    ensures Gate(a) == Missing("template")
  {
  }

  /**
   * The option reported missing is the first required option, in the order
   * template, context-path, out, extension, that is not given, and only
   * when neither help nor version was asked for.
   */
  lemma MissingIsFirstAbsent(a: Argv, k: nat)
    requires k < |Required(a)|
    ensures Gate(a) == Missing(Required(a)[k].0) <==>
            && !a.help && !Given(a.version)
            && !Given(Required(a)[k].1)
            && forall j :: 0 <= j < k ==> Given(Required(a)[j].1)
  {
    var r := Required(a);
    assert r[0] == ("template", a.template) && r[1] == ("context-path", a.contextPath);
    assert r[2] == ("out", a.out) && r[3] == ("extension", a.extension);
  }

  /** `main` goes on to load and render exactly when all four required options are given. */
  lemma ProceedOnlyWithAllRequired(a: Argv)
    ensures Gate(a).Proceed? <==>
            !a.help && !Given(a.version) && forall k :: 0 <= k < |Required(a)| ==> Given(Required(a)[k].1)
    ensures Gate(a).Proceed? ==>
            && Gate(a).template == a.template.value && Gate(a).contextPath == a.contextPath.value
            && Gate(a).out == a.out.value && Gate(a).extension == a.extension.value
            && Gate(a).prefix == a.prefix && Gate(a).dryRun == a.dryRun
  {
    if !a.help && !Given(a.version) && forall k :: 0 <= k < |Required(a)| ==> Given(Required(a)[k].1) {
      assert Given(Required(a)[0].1) && Given(Required(a)[1].1);
      assert Given(Required(a)[2].1) && Given(Required(a)[3].1);
    }
  }

  /** What goes to the console outside the rendering loop: the usage text, stdout text, stderr text. */
  datatype Line = Usage | Out(text: string) | Err(text: string)

  /** An exception that escapes `main` and ends the process with exit code 1. */
  datatype Crash = LoadCrash(loadError: LoadError) | RenderCrash(renderError: RenderError)

  datatype Run = Run(decision: Decision, console: seq<Line>, log: seq<Action>,
                     crash: Option<Crash>, exitCode: nat)

  function Complaint(option: string): string
  {
    "--" + option + " is required"
  }

  /**
   * `main()`: `directory` is what listing and reading `--context-path` gives,
   * `source` what reading and compiling `--template` gives, and
   * `packageVersion` the version recorded in the package manifest, and
   * `writable` whether `writeFileSync` succeeds at an output path.
   */
  method Execute(argv: Argv, packageVersion: string, directory: Directory, source: TemplateSource,
                 writable: OutPath -> bool)
    returns (run: Run)
    ensures run.decision == Gate(argv)
    ensures run.decision.ShowHelp? ==> run == Run(ShowHelp, [Usage], [], None, 0)
    ensures run.decision.ShowVersion? ==> run == Run(ShowVersion, [Out(packageVersion)], [], None, 0)
    ensures run.decision.Missing? ==>
              run == Run(run.decision, [Err(Complaint(run.decision.option)), Usage], [], None, 1)
    ensures run.decision.Proceed? ==>
              run.console == [] &&
              match LoadContexts(directory)
              case Failure(e) => run.log == [] && run.crash == Some(LoadCrash(e)) && run.exitCode == 1
              case Success(contexts) =>
                var o := RenderWith(source, contexts,
                                    Target(run.decision.out, run.decision.extension,
                                           PrefixOrDefault(run.decision.prefix), run.decision.dryRun),
                                    writable);
                && run.log == o.log
                && run.crash == (if o.failure.None? then None else Some(RenderCrash(o.failure.value)))
                && run.exitCode == (if o.failure.None? then 0 else 1)
    ensures forall i :: 0 <= i < |run.log| ==> run.decision.Proceed? && (run.log[i].Notice? <==> argv.dryRun)
  {
    var decision := Gate(argv);
    match decision
    case ShowHelp =>
      return Run(decision, [Usage], [], None, 0);
    case ShowVersion =>
      return Run(decision, [Out(packageVersion)], [], None, 0);
    case Missing(option) =>
      return Run(decision, [Err(Complaint(option)), Usage], [], None, 1);
    case Proceed(template, contextPath, out, extension, prefix, dryRun) =>
      var loaded := LoadContexts(directory);
      if loaded.Failure? {
        return Run(decision, [], [], Some(LoadCrash(loaded.error)), 1);
      }
      var log, failure := RenderTemplate(source, loaded.value, out, extension, prefix, Some(dryRun), writable);
      assert DryRunOrDefault(Some(dryRun)) == dryRun == argv.dryRun;
      if failure.None? {
        run := Run(decision, [], log, None, 0);
      } else {
        run := Run(decision, [], log, Some(RenderCrash(failure.value)), 1);
      }
  }
}
