/**
 * The base name given to each context file:
 * `f.split(".").slice(0, -1).join(".")`.
 */
module FileNames {
  import opened Wrappers
  import opened Text

  /**
   * Split on ".", drop the last piece, join the rest with ".": the result is
   * the text before the last ".", and "" when the name has no ".".
   */
  function BaseName(f: string): (base: string)
    ensures var k := LastIndexOf(f, '.'); base == if k.None? then "" else f[..k.value]
  {
    var parts := Split(f, '.');
    var n := |parts|;
    var init, last := parts[..n - 1], parts[n - 1];
    JoinSplit(f, '.');
    assert '.' !in last;
    if n == 1 then
      assert parts == [last];
      assert f == last;
      Join(init, ".")
    else
      assert parts == init + [last];
      JoinSnoc(init, last, ".");
      assert f == Join(init, ".") + ['.'] + last;
      LastIndexOfBefore(Join(init, "."), '.', last);
      assert f[..|Join(init, ".")|] == Join(init, ".");
      Join(init, ".")
  }

  /** A name without a "." has the empty base name, not itself. */
  lemma BaseNameWithoutDot(f: string)
    requires '.' !in f
    ensures BaseName(f) == ""
  {
  }

  /**
   * A name with a "." is its base name, a ".", and a last segment free of ".":
   * exactly the final dot-delimited segment is stripped.
   */
  lemma BaseNameWithDot(f: string)
    requires '.' in f
    ensures |BaseName(f)| < |f| && f[|BaseName(f)|] == '.'
    ensures '.' !in f[|BaseName(f)| + 1..]
    ensures f == BaseName(f) + "." + f[|BaseName(f)| + 1..]
  {
    var k := LastIndexOf(f, '.').value;
    assert f == f[..k] + "." + f[k + 1..];
  }

  /** The base name is a prefix of the name, and strictly shorter unless the name is empty. */
  lemma BaseNameIsShorterPrefix(f: string)
    ensures BaseName(f) <= f
    ensures f != "" ==> |BaseName(f)| < |f|
  {
  }

  /** Cutting a name at a "." followed only by dot-free text gives the text before it. */
  lemma BaseNameOfParts(base: string, last: string)
    requires '.' !in last
    ensures BaseName(base + "." + last) == base
  {
    LastIndexOfBefore(base, '.', last);
    assert (base + "." + last)[..|base|] == base;
  }

  /** The edge cases: "a.b.c", "a.", ".env" and a name without a dot. */
  lemma BaseNameExamples()
    ensures BaseName("a.b.c") == "a.b"
    ensures BaseName("a.") == "a"
    ensures BaseName(".env") == ""
    ensures BaseName("README") == ""
  {
    BaseNameOfParts("a.b", "c");
    assert "a.b" + "." + "c" == "a.b.c";
    BaseNameOfParts("a", "");
    assert "a" + "." + "" == "a.";
    BaseNameOfParts("", "env");
    assert "" + "." + "env" == ".env";
    BaseNameWithoutDot("README");
  }
}
