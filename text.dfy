/**
 * The JavaScript string operations the tool relies on, over `seq<char>`:
 * `String.prototype.split` with a one-character separator,
 * `Array.prototype.join`, and `String.prototype.lastIndexOf`.
 */
module Text {
  import opened Wrappers

  /** Number of occurrences of `c` in `s`. */
  function Count(s: string, c: char): nat
  {
    if |s| == 0 then 0 else (if s[0] == c then 1 else 0) + Count(s[1..], c)
  }

  /**
   * `s.split(sep)`: the maximal pieces of `s` between occurrences of `sep`.
   * There is always one more piece than there are separators, and no piece
   * contains the separator; `"".split(".")` is `[""]`.
   */
  function Split(s: string, sep: char): (parts: seq<string>)
    ensures |parts| == Count(s, sep) + 1
    ensures forall i :: 0 <= i < |parts| ==> sep !in parts[i]
  {
    if |s| == 0 then [""]
    else
      var rest := Split(s[1..], sep);
      if s[0] == sep then [""] + rest
      else [[s[0]] + rest[0]] + rest[1..]
  }

  /** `parts.join(sep)`: no parts give the empty string, one part gives itself. */
  function Join(parts: seq<string>, sep: string): string
  {
    if |parts| == 0 then ""
    else if |parts| == 1 then parts[0]
    else parts[0] + sep + Join(parts[1..], sep)
  }

  /** Joining the pieces of a split with the same separator gives back the text. */
  lemma {:induction false} JoinSplit(s: string, sep: char)
    ensures Join(Split(s, sep), [sep]) == s
  {
    if |s| > 0 {
      var rest := Split(s[1..], sep);
      JoinSplit(s[1..], sep);
      if s[0] == sep {
        assert Split(s, sep) == [""] + rest;
        assert ([""] + rest)[1..] == rest;
        assert s == [sep] + s[1..];
      } else {
        var parts := [[s[0]] + rest[0]] + rest[1..];
        assert Split(s, sep) == parts;
        if |rest| == 1 {
          assert Join(rest, [sep]) == rest[0];
        } else {
          assert parts[1..] == rest[1..];
          assert Join(rest, [sep]) == rest[0] + [sep] + Join(rest[1..], [sep]);
        }
        assert s == [s[0]] + s[1..];
      }
    }
  }

  /** Appending one part after at least one other adds the separator and that part. */
  lemma {:induction false} JoinSnoc(init: seq<string>, last: string, sep: string)
    requires |init| > 0
    ensures Join(init + [last], sep) == Join(init, sep) + sep + last
  {
    if |init| > 1 {
      JoinSnoc(init[1..], last, sep);
      assert (init + [last])[1..] == init[1..] + [last];
    } else {
      assert init + [last] == [init[0], last];
      assert [init[0], last][1..] == [last];
    }
  }

  /**
   * `s.lastIndexOf(c)`, with `None` for JavaScript's -1: the position of an
   * occurrence of `c` after which `c` does not occur again.
   */
  function LastIndexOf(s: string, c: char): (k: Option<nat>)
    ensures k.None? <==> c !in s
    ensures k.Some? ==> k.value < |s| && s[k.value] == c && c !in s[k.value + 1..]
  {
    if |s| == 0 then None
    else if s[|s| - 1] == c then Some(|s| - 1)
    else
      var k := LastIndexOf(s[..|s| - 1], c);
      assert s == s[..|s| - 1] + [s[|s| - 1]];
      if k.Some? then assert s[k.value + 1..] == s[..|s| - 1][k.value + 1..] + [s[|s| - 1]]; k
      else k
  }

  /** A separator followed only by separator-free text is the last occurrence. */
  lemma LastIndexOfBefore(a: string, c: char, b: string)
    requires c !in b
    ensures LastIndexOf(a + [c] + b, c) == Some(|a|)
  {
    var s := a + [c] + b;
    assert s[|a|] == c;
    assert s[|a| + 1..] == b;
  }
}
