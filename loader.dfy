/**
 * `loadContexts`: every entry of the context directory, in listing order,
 * becomes the record `{ fileName: <base name>, ...document }`.
 */
module Loader {
  import opened Wrappers
  import opened Values
  import opened FileNames

  /** A document's top-level mapping. */
  type Doc = map<string, Value>

  /** A context record always has a `fileName` key. */
  type Record = r: map<string, Value> | "fileName" in r witness map["fileName" := Str("")]

  /**
   * What reading and parsing one entry gives: nothing (an empty file or a
   * `null` document), a mapping, or a failure of the read or of the parser.
   */
  datatype Document = Absent | Mapping(fields: Doc) | ReadFailed | ParseFailed

  /** One directory entry: its name and what its content parses to. */
  datatype Entry = Entry(name: string, document: Document)

  /** The context directory: its listing, or a directory that cannot be listed. */
  datatype Directory = Listing(entries: seq<Entry>) | Unlistable

  datatype LoadError = ListError | ReadError(file: string) | ParseError(file: string)

  predicate Loads(e: Entry)
  {
    e.document.Absent? || e.document.Mapping?
  }

  function ErrorOf(e: Entry): LoadError
    requires !Loads(e)
  {
    if e.document.ReadFailed? then ReadError(e.name) else ParseError(e.name)
  }

  /**
   * `{ fileName: base, ...doc }`: the derived name first, then every key of
   * the document, so that a document's own `fileName` wins; an absent
   * document spreads nothing.
   */
  function ContextRecord(name: string, document: Document): (r: Record)
    requires document.Absent? || document.Mapping?
    ensures r["fileName"] ==
              if document.Mapping? && "fileName" in document.fields
              then document.fields["fileName"] else Str(BaseName(name))
    ensures forall k :: k != "fileName" ==>
              (k in r <==> document.Mapping? && k in document.fields)
    ensures forall k :: k != "fileName" && k in r ==> r[k] == document.fields[k]
    ensures document.Absent? || document.fields == map[] ==>
              r == map["fileName" := Str(BaseName(name))]
  {
    var spread := if document.Mapping? then document.fields else map[];
    map["fileName" := Str(BaseName(name))] + spread
  }

  /**
   * `files.map(...)`: one record per entry, in order, when every entry reads
   * and parses; otherwise the error of the first entry that does not, as the
   * exception thrown there ends the map.
   */
  function LoadEntries(entries: seq<Entry>): (r: Result<seq<Record>, LoadError>)
    ensures r.Success? <==> forall i :: 0 <= i < |entries| ==> Loads(entries[i])
    ensures r.Success? ==> |r.value| == |entries|
    ensures r.Success? ==> forall i :: 0 <= i < |entries| ==>
              r.value[i] == ContextRecord(entries[i].name, entries[i].document)
    ensures r.Failure? ==>
              exists k :: (0 <= k < |entries| && !Loads(entries[k]) &&
                           (forall i :: 0 <= i < k ==> Loads(entries[i])) && r.error == ErrorOf(entries[k]))
  {
    if |entries| == 0 then Success([])
    else if !Loads(entries[0]) then Failure(ErrorOf(entries[0]))
    else
      var first := ContextRecord(entries[0].name, entries[0].document);
      match LoadEntries(entries[1..])
      case Failure(e) =>
        ghost var k :| 0 <= k < |entries| - 1 && !Loads(entries[1..][k]) &&
                       (forall i :: 0 <= i < k ==> Loads(entries[1..][i])) && e == ErrorOf(entries[1..][k]);
        assert !Loads(entries[k + 1]) && forall i :: 0 <= i < k + 1 ==> Loads(entries[i]);
        Failure(e)
      case Success(rest) =>
        Success([first] + rest)
  }

  /**
   * `loadContexts(srcPath)`: list the directory, then load its entries. A
   * directory that cannot be listed throws before any file is read.
   */
  function LoadContexts(dir: Directory): (r: Result<seq<Record>, LoadError>)
    ensures dir.Unlistable? ==> r == Failure(ListError)
    ensures r.Success? <==> dir.Listing? && forall i :: 0 <= i < |dir.entries| ==> Loads(dir.entries[i])
    ensures r.Success? ==> |r.value| == |dir.entries|
    ensures r.Success? ==> forall i :: 0 <= i < |dir.entries| ==>
              r.value[i] == ContextRecord(dir.entries[i].name, dir.entries[i].document)
  {
    match dir
    case Unlistable => Failure(ListError)
    case Listing(entries) => LoadEntries(entries)
  }
}
