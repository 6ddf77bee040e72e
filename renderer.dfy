/**
 * `renderTemplate`: the template is compiled once, then each context in
 * order is rendered and either announced on standard output (dry run) or
 * written to `<out>/<prefix><fileName><extension>`. The effects are kept as
 * a log of actions.
 */
module Renderer {
  import opened Wrappers
  import opened Values
  import opened Loader

  /** An output file: the resolved output directory and the file's own name in it. */
  datatype OutPath = OutPath(dir: string, name: string)

  /**
   * One effect of the loop: in dry-run mode `going to write <path>\n`
   * followed by the data on standard output; otherwise the data written to
   * the file at the path.
   */
  datatype Action = Notice(path: OutPath, data: string) | Write(path: OutPath, data: string)

  /** Evaluating the compiled template on one context: its text, or the exception it throws. */
  datatype Evaluation = Evaluated(data: string) | Threw(message: string)

  /** A compiled Handlebars template, taken as an opaque function of the context. */
  type Template = Record -> Evaluation

  /** The template file: compiled, or unreadable (the read throws before any rendering). */
  datatype TemplateSource = Compiled(template: Template) | Unreadable(file: string)

  /**
   * What ends the run early: the template file cannot be read, the template
   * throws on a context, or `writeFileSync` throws (a missing output
   * directory, a directory in the way, no permission).
   */
  datatype RenderError = TemplateUnreadable(file: string) | TemplateFailed(message: string)
                       | WriteFailed(path: OutPath)

  /** The actions taken, and the error that ended the loop early, if any. */
  datatype Outcome = Outcome(log: seq<Action>, failure: Option<RenderError>)

  /** Where and how the loop emits: output directory, extension, prefix, dry-run mode. */
  datatype Target = Target(outDir: string, extension: string, prefix: string, dryRun: bool)

  /**
   * The file name `prefix + c.fileName + outputExtension`: the prefix, then the
   * record's `fileName` as JavaScript turns it into text, then the extension.
   */
  function OutputName(prefix: string, c: Record, extension: string): (name: string)
    ensures |name| >= |prefix| + |extension|
    ensures name[..|prefix|] == prefix && name[|name| - |extension|..] == extension
    ensures name[|prefix|..|name| - |extension|] == ToText(c["fileName"])
    ensures c["fileName"].Str? ==> name == prefix + c["fileName"].s + extension
  {
    var name := prefix + ToText(c["fileName"]) + extension;
    assert name[..|prefix|] == prefix;
    assert name[|name| - |extension|..] == extension;
    assert name[|prefix|..|name| - |extension|] == ToText(c["fileName"]);
    name
  }

  /** The output path of one context: `path.resolve(outPath, <output name>)`. */
  function PathFor(target: Target, c: Record): OutPath
  {
    OutPath(target.outDir, OutputName(target.prefix, c, target.extension))
  }

  function ActionFor(dryRun: bool, path: OutPath, data: string): Action
  {
    if dryRun then Notice(path, data) else Write(path, data)
  }

  /**
   * What the loop does over `contexts` once the template is compiled;
   * `writable` says of each output path whether `writeFileSync` succeeds
   * there. Every context gets its action unless the loop stops early, and
   * then it stops before some context.
   */
  function Plan(t: Template, contexts: seq<Record>, target: Target, writable: OutPath -> bool): (r: Outcome)
    ensures r.failure.None? ==> |r.log| == |contexts|
    ensures r.failure.Some? ==> |r.log| < |contexts|
  {
    if |contexts| == 0 then Outcome([], None)
    else
      match t(contexts[0])
      case Threw(m) => Outcome([], Some(TemplateFailed(m)))
      case Evaluated(data) =>
        var path := PathFor(target, contexts[0]);
        if !target.dryRun && !writable(path) then Outcome([], Some(WriteFailed(path)))
        else
          var rest := Plan(t, contexts[1..], target, writable);
          Outcome([ActionFor(target.dryRun, path, data)] + rest.log, rest.failure)
  }

  /**
   * The loop produces one action per context, in context order: the i-th
   * action is for the i-th context, at its output path, carrying that
   * context's rendered text, and is a notice exactly in dry-run mode. It
   * stops at the first context on which the template throws or, outside
   * dry-run, the write throws, with the actions before it already taken.
   */
  lemma {:induction false} PlanMatchesContexts(t: Template, contexts: seq<Record>, target: Target,
                                               writable: OutPath -> bool)
    ensures var r := Plan(t, contexts, target, writable);
            && (r.failure.Some? ==>
                  && |r.log| < |contexts|
                  && var c := contexts[|r.log|];
                     || (t(c).Threw? && r.failure == Some(TemplateFailed(t(c).message)))
                     || (t(c).Evaluated? && !target.dryRun && !writable(PathFor(target, c)) &&
                         r.failure == Some(WriteFailed(PathFor(target, c)))))
            && forall i :: 0 <= i < |r.log| ==>
                 && t(contexts[i]).Evaluated?
                 && (target.dryRun || writable(PathFor(target, contexts[i])))
                 && r.log[i] == ActionFor(target.dryRun, PathFor(target, contexts[i]), t(contexts[i]).data)
  {
    if |contexts| > 0 && t(contexts[0]).Evaluated? {
      PlanMatchesContexts(t, contexts[1..], target, writable);
    }
  }

  /**
   * Reading and compiling the template first, then the loop: an unreadable
   * template file gives no action at all.
   */
  function RenderWith(source: TemplateSource, contexts: seq<Record>, target: Target,
                      writable: OutPath -> bool): (r: Outcome)
    ensures source.Unreadable? ==> r.log == [] && r.failure == Some(TemplateUnreadable(source.file))
    ensures r.failure.None? ==> |r.log| == |contexts|
    ensures |r.log| <= |contexts|
    ensures forall i :: 0 <= i < |r.log| ==>
              r.log[i].path == PathFor(target, contexts[i]) && (r.log[i].Notice? <==> target.dryRun)
  {
    match source
    case Unreadable(file) => Outcome([], Some(TemplateUnreadable(file)))
    case Compiled(t) =>
      PlanMatchesContexts(t, contexts, target, writable);
      Plan(t, contexts, target, writable)
  }

  /** The default parameters `prefix = ""` and `dryRun = true`, applied when the argument is undefined. */
  function PrefixOrDefault(prefix: Option<string>): string
  {
    if prefix.Some? then prefix.value else ""
  }

  function DryRunOrDefault(dryRun: Option<bool>): bool
  {
    if dryRun.Some? then dryRun.value else true
  }

  /** With `dryRun` every action is a notice and nothing is written; without it every action is a write. */
  lemma DryRunWritesNothing(t: Template, contexts: seq<Record>, target: Target, writable: OutPath -> bool)
    ensures var p := Plan(t, contexts, target, writable);
            forall i :: 0 <= i < |p.log| ==> (p.log[i].Notice? <==> target.dryRun) && (p.log[i].Write? <==> !target.dryRun)
  {
    PlanMatchesContexts(t, contexts, target, writable);
  }

  /**
   * A template that throws on no context, with every output path writable
   * or in dry-run mode, gives exactly one action per context and no error.
   */
  lemma CompleteWhenNothingThrows(t: Template, contexts: seq<Record>, target: Target,
                                                     writable: OutPath -> bool)
    requires forall i :: 0 <= i < |contexts| ==> t(contexts[i]).Evaluated?
    requires !target.dryRun ==> forall i :: 0 <= i < |contexts| ==> writable(PathFor(target, contexts[i]))
    ensures Plan(t, contexts, target, writable).failure.None?
    ensures |Plan(t, contexts, target, writable).log| == |contexts|
  {
    PlanMatchesContexts(t, contexts, target, writable);
  }

  /**
   * A context loaded from a document without its own `fileName` is written
   * to `<prefix><base name of its file><extension>`.
   */
  lemma OutputNameOfLoadedContext(name: string, document: Document, prefix: string, extension: string)
    requires document.Absent? || (document.Mapping? && "fileName" !in document.fields)
    ensures OutputName(prefix, ContextRecord(name, document), extension) ==
            prefix + FileNames.BaseName(name) + extension
  {
  }

  /**
   * Loading then rendering, end to end: when every entry reads and parses,
   * no document defines its own `fileName`, the template throws on none of
   * the loaded records and every output path is writable (or the run is a
   * dry run), the i-th action goes to `<out>/<prefix><base name of the i-th
   * file><extension>` and carries the template applied to the i-th record.
   */
  lemma LoadThenRender(entries: seq<Entry>, t: Template, target: Target, writable: OutPath -> bool)
    requires forall i :: 0 <= i < |entries| ==>
               Loads(entries[i]) && t(ContextRecord(entries[i].name, entries[i].document)).Evaluated?
    requires forall i :: 0 <= i < |entries| && entries[i].document.Mapping? ==>
               "fileName" !in entries[i].document.fields
    requires !target.dryRun ==> forall i :: 0 <= i < |entries| ==>
               writable(OutPath(target.outDir, target.prefix + FileNames.BaseName(entries[i].name) + target.extension))
    ensures LoadEntries(entries).Success?
    ensures var p := Plan(t, LoadEntries(entries).value, target, writable);
            && p.failure.None? && |p.log| == |entries|
            && forall i :: 0 <= i < |entries| ==>
                 p.log[i] == ActionFor(target.dryRun,
                                       OutPath(target.outDir, target.prefix + FileNames.BaseName(entries[i].name) + target.extension),
                                       t(ContextRecord(entries[i].name, entries[i].document)).data)
  {
    var contexts := LoadEntries(entries).value;
    assert |contexts| == |entries|;
    forall i | 0 <= i < |entries|
      ensures t(contexts[i]).Evaluated?
      ensures PathFor(target, contexts[i]) ==
              OutPath(target.outDir, target.prefix + FileNames.BaseName(entries[i].name) + target.extension)
    {
      assert contexts[i] == ContextRecord(entries[i].name, entries[i].document);
      OutputNameOfLoadedContext(entries[i].name, entries[i].document, target.prefix, target.extension);
    }
    CompleteWhenNothingThrows(t, contexts, target, writable);
    PlanMatchesContexts(t, contexts, target, writable);
  }

  /** The loop prefix `done` followed by what the loop does from there on. */
  function Then(done: seq<Action>, o: Outcome): Outcome
  {
    Outcome(done + o.log, o.failure)
  }

  /** One iteration of the loop: the context at `i` throws, its write throws, or it adds its action. */
  lemma PlanStep(t: Template, contexts: seq<Record>, i: nat, target: Target, writable: OutPath -> bool)
    requires i < |contexts|
    ensures Plan(t, contexts[i..], target, writable) ==
            if t(contexts[i]).Threw? then Outcome([], Some(TemplateFailed(t(contexts[i]).message)))
            else if !target.dryRun && !writable(PathFor(target, contexts[i]))
            then Outcome([], Some(WriteFailed(PathFor(target, contexts[i]))))
            else Then([ActionFor(target.dryRun, PathFor(target, contexts[i]), t(contexts[i]).data)],
                      Plan(t, contexts[i + 1..], target, writable))
  {
    assert contexts[i..][0] == contexts[i] && contexts[i..][1..] == contexts[i + 1..];
  }

  /**
   * The `contexts.forEach` loop over an already compiled template: each
   * context in order is rendered, then announced or written.
   */
  method RenderLoop(template: Template, contexts: seq<Record>, target: Target, writable: OutPath -> bool)
    returns (log: seq<Action>, failure: Option<RenderError>)
    ensures Outcome(log, failure) == Plan(template, contexts, target, writable)
  {
    log, failure := [], None;
    var i := 0;
    while i < |contexts|
      invariant 0 <= i <= |contexts|
      invariant Plan(template, contexts, target, writable) ==
                Then(log, Plan(template, contexts[i..], target, writable))
    {
      var c := contexts[i];
      PlanStep(template, contexts, i, target, writable);
      var data := template(c);
      if data.Threw? {
        failure := Some(TemplateFailed(data.message));
        return;
      }
      var outFileName := PathFor(target, c);
      if !target.dryRun && !writable(outFileName) {
        failure := Some(WriteFailed(outFileName));
        return;
      }
      var action := ActionFor(target.dryRun, outFileName, data.data);
      assert log + [action] + Plan(template, contexts[i + 1..], target, writable).log ==
             log + ([action] + Plan(template, contexts[i + 1..], target, writable).log);
      log := log + [action];
      i := i + 1;
    }
    assert contexts[i..] == [];
  }

  /**
   * `renderTemplate(templatePath, contexts, outputPath, outputExtension, prefix, dryRun)`:
   * the defaults apply, the template is read and compiled once, before the
   * loop, and the loop visits the contexts in order; `writable` stands for
   * the file system the writes meet.
   */
  method RenderTemplate(source: TemplateSource, contexts: seq<Record>, outDir: string,
                        extension: string, prefix: Option<string>, dryRun: Option<bool>,
                        writable: OutPath -> bool)
    returns (log: seq<Action>, failure: Option<RenderError>)
    ensures Outcome(log, failure) ==
            RenderWith(source, contexts, Target(outDir, extension, PrefixOrDefault(prefix), DryRunOrDefault(dryRun)),
                       writable)
  {
    var target := Target(outDir, extension, PrefixOrDefault(prefix), DryRunOrDefault(dryRun));
    if source.Unreadable? {
      return [], Some(TemplateUnreadable(source.file));
    }
    log, failure := RenderLoop(source.template, contexts, target, writable);
  }
}
