/**
 * Texts as sequences of newline-terminated lines: the front matter and body of
 * a generated article file are read by the site generator line by line.
 */
module Lines {

  predicate NoNewline(s: string) {
    '\n' !in s
  }

  /** Each line followed by `\n`, the way the renderers append `... + '\n'`. */
  function Join(lines: seq<string>): string {
    if lines == [] then "" else lines[0] + "\n" + Join(lines[1..])
  }

  /** The index of the first `c` in `s`, or `|s|` when there is none. */
  function FirstIndex(s: string, c: char): (k: nat)
    ensures k <= |s| && c !in s[..k]
    ensures k < |s| ==> s[k] == c
  {
    if s == [] || s[0] == c then 0
    else
      var k := 1 + FirstIndex(s[1..], c);
      assert s[..k] == [s[0]] + s[1..][..k - 1];
      k
  }

  /** The lines of a text; a last line without `\n` still counts. */
  function SplitLines(s: string): (lines: seq<string>)
    ensures forall i :: 0 <= i < |lines| ==> NoNewline(lines[i])
    decreases |s|
  {
    if s == [] then []
    else
      var k := FirstIndex(s, '\n');
      if k == |s| then [s] else [s[..k]] + SplitLines(s[k + 1..])
  }

  lemma {:induction false} JoinAppend(a: seq<string>, b: seq<string>)
    ensures Join(a + b) == Join(a) + Join(b)
  {
    if a == [] {
      assert a + b == b;
    } else {
      assert (a + b)[1..] == a[1..] + b;
      JoinAppend(a[1..], b);
      assert Join(a + b) == a[0] + "\n" + (Join(a[1..]) + Join(b));
    }
  }

  /** The first `c` after a prefix free of `c` is where the prefix ends. */
  lemma {:induction false} FirstIndexAfter(prefix: string, c: char, rest: string)
    requires c !in prefix
    ensures FirstIndex(prefix + [c] + rest, c) == |prefix|
  {
    if prefix != [] {
      assert (prefix + [c] + rest)[1..] == prefix[1..] + [c] + rest;
      FirstIndexAfter(prefix[1..], c, rest);
    }
  }

  lemma JoinCons(line: string, rest: seq<string>)
    ensures Join([line] + rest) == line + "\n" + Join(rest)
  {
    assert ([line] + rest)[1..] == rest;
  }

  /** Splitting joined lines gives the lines back when none holds a newline. */
  lemma {:induction false} SplitJoin(lines: seq<string>)
    requires forall i :: 0 <= i < |lines| ==> NoNewline(lines[i])
    ensures SplitLines(Join(lines)) == lines
  {
    if lines != [] {
      var s := Join(lines);
      var rest := Join(lines[1..]);
      FirstIndexAfter(lines[0], '\n', rest);
      assert s[..|lines[0]|] == lines[0];
      assert s[|lines[0]| + 1..] == rest;
      SplitJoin(lines[1..]);
    }
  }

  /** A text with a newline splits into the part before it and the lines after it. */
  lemma SplitAtNewline(s: string)
    requires FirstIndex(s, '\n') < |s|
    ensures SplitLines(s) == [s[..FirstIndex(s, '\n')]] + SplitLines(s[FirstIndex(s, '\n') + 1..])
  {
  }

  /** A text is what comes before position `k`, the character there, and
      what comes after. */
  lemma Recompose(s: string, k: nat)
    requires k < |s|
    ensures s == s[..k] + [s[k]] + s[k + 1..]
  {
  }

  /** Joining the lines of a text that ends with a newline gives the text back. */
  lemma {:induction false} JoinSplit(s: string)
    requires s == [] || s[|s| - 1] == '\n'
    ensures Join(SplitLines(s)) == s
    decreases |s|
  {
    if s != [] {
      var k := FirstIndex(s, '\n');
      var line, rest := s[..k], s[k + 1..];
      assert rest == [] || rest[|rest| - 1] == s[|s| - 1];
      JoinSplit(rest);
      SplitAtNewline(s);
      JoinCons(line, SplitLines(rest));
      Recompose(s, k);
    }
  }
}
