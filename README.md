# yamltmpl, modelled in Dafny

yamltmpl is a command-line generator. It reads every YAML file in a context
directory and turns each one into a context record. The record holds the
document's keys plus a `fileName` key, which is the file's name with its
last dot-delimited segment removed. Each record is then rendered through one
Handlebars template, and the result goes to `<out>/<prefix><fileName><extension>`.
In dry-run mode the tool prints `going to write <path>` and the text on
standard output instead of writing the file.

This project models the deterministic part of `src/yamltmpl.ts`:

- `FileNames` — the base-name expression `f.split(".").slice(0, -1).join(".")`,
  built on `Text`, which models JavaScript's `split`, `join` and `lastIndexOf`
  over `seq<char>`.
- `Values` — the YAML values a document can hold. It also defines the text
  JavaScript makes of a value in `prefix + c.fileName + extension`
  (`String(v)`: `"null"`, `"true"`, decimal integers, arrays joined by `","`,
  `"[object Object]"`).
- `Loader` — `loadContexts`. It builds one record `{ fileName: base, ...doc }`
  per directory entry, in listing order. A failed read or parse is an
  exception that ends the whole load.
- `Renderer` — `renderTemplate`. The template is read and compiled once.
  Then a loop visits the contexts in order and appends one `Notice` or
  `Write` action per context to a log. A template that throws ends the loop,
  and the actions already taken stay taken. The method `RenderTemplate` is
  proved equal to the specification function `RenderWith`/`Plan`, and the
  lemmas state what `Plan` does.
- `Cli` — the option gate at the top of `main` and the composition
  `main` → `loadContexts` → `renderTemplate`, with exit codes: 0 normally;
  1 for a missing option or for an exception that escapes `main`.

Three behaviours of the code worth stating plainly:

- A file name with no `.` gets the base name `""`, not the name itself.
  `"README".split(".")` is `["README"]`, and dropping its last piece leaves
  nothing to join (src/yamltmpl.ts:89-92).
- `renderTemplate` has no overwrite guard and no single-output mode: outside
  dry-run it always writes (src/yamltmpl.ts:118-123).
- `version` is declared a string option (src/yamltmpl.ts:28), so a bare
  `--version` parses to `""`, which is falsy (src/yamltmpl.ts:42). The version
  is then not printed: without `--template` the run reports
  `--template is required` and exits 1 (`Cli.BareVersionIsIgnored`).

Writes can fail. `writeFileSync` (src/yamltmpl.ts:122) throws when the output
directory is missing, when a directory stands at the path, or without
permission. The model takes the file system as a parameter
`writable: OutPath -> bool`. A failing write ends the loop with `WriteFailed`,
keeps the actions already taken, and makes the process exit with code 1.

Default parameters of `renderTemplate` are modelled as written: `prefix`
falls back to `""` and `dryRun` to `true` when the argument is undefined.
`main` always passes a boolean for `dryRun`, because minimist declares
`dry-run` as a boolean option.

## Model

| member | source | states |
|---|---|---|
| `Text.Split` | src/yamltmpl.ts:90 | `split(".")` yields one more piece than the text has dots, and no piece contains a dot |
| `Text.JoinSplit` | src/yamltmpl.ts:90-92 | joining the pieces of a split with the same separator gives back the original name |
| `FileNames.BaseName` | src/yamltmpl.ts:89-92 | `f.split(".").slice(0, -1).join(".")` is the text before the last `.` of the name, and `""` when the name has no `.` |
| `FileNames.BaseNameWithoutDot` | src/yamltmpl.ts:89-92 | a name without a `.` gets the empty base name, not the name itself |
| `FileNames.BaseNameWithDot` | src/yamltmpl.ts:89-92 | a name with a `.` is exactly base + `"."` + a last segment containing no `.` |
| `FileNames.BaseNameIsShorterPrefix` | src/yamltmpl.ts:89-92 | the base name is always a prefix of the name, and strictly shorter unless the name is empty |
| `FileNames.BaseNameOfParts` | src/yamltmpl.ts:89-92 | cutting `base + "." + last`, where `last` has no `.`, gives `base` back |
| `FileNames.BaseNameExamples` | src/yamltmpl.ts:89-92 | `"a.b.c"` → `"a.b"`, `"a."` → `"a"`, `".env"` → `""`, `"README"` → `""` |
| `Loader.ContextRecord` | src/yamltmpl.ts:88-94 | `fileName` is the document's own `fileName` when it has one, otherwise the derived base name; every other key and value is the document's; an absent or empty document gives exactly `{fileName: base}` |
| `Loader.LoadEntries` | src/yamltmpl.ts:84-95 | succeeds exactly when every entry reads and parses; then one record per entry, in listing order, each the merge of that entry; otherwise the error of the first failing entry |
| `Loader.LoadContexts` | src/yamltmpl.ts:81-97 | an unlistable directory fails with `ListError` before any file is read; otherwise it succeeds exactly when every listed entry loads, with one record per entry in listing order |
| `Values.NatText` | src/yamltmpl.ts:116 | the decimal text of a number in a concatenation has no leading zero, and reading its digits back gives the number |
| `Values.ToText` | src/yamltmpl.ts:116 | `String(v)` of a string is the string; of an integer it is an optional `-` then decimal digits that read back as its absolute value |
| `Renderer.OutputName` | src/yamltmpl.ts:116 | the output file name is the prefix, then the record's `fileName` as text, then the extension; for a string `fileName` it is exactly `prefix + fileName + extension` |
| `Renderer.Plan` | src/yamltmpl.ts:112-124 | the loop gives one action per context when nothing throws, and otherwise stops before some context |
| `Renderer.PlanMatchesContexts` | src/yamltmpl.ts:112-124 | the i-th action is for the i-th context, at `<out>/<prefix><fileName><extension>`, with that context's rendered text, and is a notice exactly in dry-run mode; the loop stops at the first context whose rendering throws or, outside dry-run, whose write throws, with the earlier actions kept |
| `Renderer.RenderWith` | src/yamltmpl.ts:109-124 | an unreadable template file gives no action and `TemplateUnreadable`; otherwise at most one action per context, exactly one when nothing throws, each at its context's path and a notice exactly in dry-run mode |
| `Renderer.DryRunWritesNothing` | src/yamltmpl.ts:118-123 | with `dryRun` every action is a stdout notice and none is a file write; without it every action is a write |
| `Renderer.CompleteWhenNothingThrows` | src/yamltmpl.ts:112-124 | when the template throws on no context and every path is writable (or the run is a dry run), there is no error and exactly one action per context |
| `Renderer.OutputNameOfLoadedContext` | src/yamltmpl.ts:114-117 | a context whose document has no `fileName` is written to `prefix + base name + extension` |
| `Renderer.LoadThenRender` | src/yamltmpl.ts:83-124 | when every entry loads, no document has its own `fileName`, the template throws on none of the loaded records and every path is writable (or the run is a dry run), the i-th action is for `<out>/<prefix><base name of file i><extension>` and carries the template applied to record i |
| `Renderer.RenderLoop` | src/yamltmpl.ts:112-124 | the `forEach` loop, with its invariant, produces exactly the log and error of `Plan` |
| `Renderer.RenderTemplate` | src/yamltmpl.ts:99-125 | the template is compiled once, before the loop, and the result is exactly the log and error of `RenderWith`; the defaults are `prefix = ""` and `dryRun = true` |
| `Cli.Gate` | src/yamltmpl.ts:38-66 | `--help` is chosen exactly when it is given; `--version` exactly when it is truthy and help is not; a missing option only when neither applies; proceeding only with all four required options given |
| `Cli.BareVersionIsIgnored` | src/yamltmpl.ts:28-51 | a `--version` that parsed to `""` is falsy, so without `--template` the run reports the missing template instead of the version |
| `Cli.MissingIsFirstAbsent` | src/yamltmpl.ts:48-66 | the option reported missing is the first absent one in the order template, context-path, out, extension, and only when neither help nor version applies (both directions) |
| `Cli.ProceedOnlyWithAllRequired` | src/yamltmpl.ts:48-78 | loading and rendering happen exactly when help and version are absent and all four required options are given, and they receive those options' values |
| `Cli.Execute` | src/yamltmpl.ts:25-79 | help prints usage and exits 0; version prints the package version and exits 0; a missing option prints `--<option> is required` and usage and exits 1; otherwise a load error exits 1 with nothing rendered, and rendering produces `RenderWith`'s log, exiting 1 exactly when the template read, a rendering or a write threw; only dry-run notices appear when `--dry-run` is set |

## Left out

- Filesystem access (`readdirSync`, `readFileSync`, `writeFileSync`) is I/O. The context directory is a given `Directory` (a listing of entries with what each parses to, or unlistable). The template file is a given `TemplateSource`. Whether a write succeeds is the given `writable`, fixed for the run: a file written earlier in the loop does not change it. Writes and stdout notices are logged `Action`s; a write to stdout is taken to succeed.
- `path.resolve` against `process.cwd()` is not modelled. An `OutPath` pairs the `--out` text with the file name, so a `fileName` containing `/` or `..` is not normalised.
- YAML parsing (`yaml.safeLoad`) is a foreign library. Its result is taken as given: absent, a top-level mapping, a read failure or a parse failure. Non-mapping top-level documents (which JavaScript's spread would turn into indexed keys) and floating-point or date values are out of scope. Values hold integers only.
- Values.ToText: prints every integer in plain decimal. A JavaScript number is exact only up to 2^53 and prints in exponent form from 10^21 on (`String(1e21)` is `"1e+21"`), so document integers, a numeric `fileName` included, are faithful only for |i| < 2^53.
- The key order of the JavaScript record is not modelled. Records are maps.
- Handlebars compilation and evaluation is a foreign templating engine. A compiled template is an opaque function from a record to its text or to the exception it throws. Handlebars compiles lazily, so a template syntax error appears as a throw on the first context.
- The helpers registered by `enhanceHandlebars` (src/yamltmpl.ts:132-148) are not modelled. `increments` depends on JavaScript's `parseInt`. The case conversions wrap change-case.
- minimist option parsing is not modelled. `Argv` is the parsed result, with every string option as a defined or undefined string, and "given" meaning JavaScript truthiness: defined and non-empty. minimist's coercions are not modelled: numbers, a bare undeclared option becoming `true`, repeated options becoming arrays. A bare declared string option becoming `""` is modelled as `Some("")`, which is not given. In src/yamltmpl.ts:26-36 the options declared as strings are `output` and `output-extension`, while `main` reads `out` and `extension`. So minimist coerces numeric values of those two options, and that is not modelled either.
- `process.exit`, the stdout and stderr plumbing and the help text are the CLI shell. The usage text appears as the console line `Usage`. An exception escaping `main` appears as a `Crash` with exit code 1, which is what Node.js does with an uncaught exception. Its stack trace is not modelled.
- An overwrite guard and a unified single-output mode do not exist in the code, so they are not modelled.
