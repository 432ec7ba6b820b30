/**
 * Files as text: the lines `BufferedReader.readLine` yields from a file's
 * contents, and the contents a writer produces by appending each record
 * followed by "\n" (`bw.append(line); bw.append("\n")`).
 */
module Lines {

  /** The characters that end a line for `readLine`. */
  predicate IsBreak(c: char) {
    c == '\n' || c == '\r'
  }

  predicate NoBreak(s: string) {
    forall i | 0 <= i < |s| :: !IsBreak(s[i])
  }

  predicate AllNoBreak(ls: seq<string>) {
    forall i | 0 <= i < |ls| :: NoBreak(ls[i])
  }

  lemma NoBreakAppend(a: string, b: string)
    requires NoBreak(a) && NoBreak(b)
    ensures NoBreak(a + b)
  {
    assert forall i | |a| <= i < |a + b| :: (a + b)[i] == b[i - |a|];
  }

  /** Index of the first line break in `s`, or `|s|`. */
  function BreakIndex(s: string): (k: nat)
    ensures k <= |s| && NoBreak(s[..k])
    ensures k < |s| ==> IsBreak(s[k])
  {
    if s == [] || IsBreak(s[0]) then 0
    else
      var k := 1 + BreakIndex(s[1..]);
      assert s[..k] == [s[0]] + s[1..][..k - 1];
      k
  }

  /**
   * The successive results of `readLine` until it returns null: a line ends
   * at "\n", "\r" or "\r\n"; a last line without terminator is still a line;
   * a final terminator does not start an empty line.
   */
  function ReadLines(s: string): seq<string>
    decreases |s|
  {
    if s == [] then []
    else
      var k := BreakIndex(s);
      if k == |s| then [s]
      else
        var next := if s[k] == '\r' && k + 1 < |s| && s[k + 1] == '\n' then k + 2 else k + 1;
        [s[..k]] + ReadLines(s[next..])
  }

  lemma AllNoBreakCons(l: string, ls: seq<string>)
    requires NoBreak(l) && AllNoBreak(ls)
    ensures AllNoBreak([l] + ls)
  {
    forall i | 0 <= i < |[l] + ls|
      ensures NoBreak(([l] + ls)[i])
    {
      if i > 0 {
        assert ([l] + ls)[i] == ls[i - 1];
      }
    }
  }

  /** No line `readLine` returns contains a line break. */
  lemma {:induction false} ReadLinesNoBreak(s: string)
    ensures AllNoBreak(ReadLines(s))
    decreases |s|
  {
    if s != [] {
      var k := BreakIndex(s);
      if k < |s| {
        var next := if s[k] == '\r' && k + 1 < |s| && s[k + 1] == '\n' then k + 2 else k + 1;
        ReadLinesNoBreak(s[next..]);
        AllNoBreakCons(s[..k], ReadLines(s[next..]));
      } else {
        assert s[..k] == s;
      }
    }
  }

  /** What a writer holds after appending every record followed by "\n". */
  function Render(rs: seq<string>): string {
    if rs == [] then "" else Render(rs[..|rs| - 1]) + rs[|rs| - 1] + "\n"
  }

  lemma {:induction false} RenderAppend(a: seq<string>, b: seq<string>)
    ensures Render(a + b) == Render(a) + Render(b)
    decreases |b|
  {
    if b == [] {
      assert a + b == a;
    } else {
      var n := |b| - 1;
      assert (a + b)[..|a + b| - 1] == a + b[..n];
      RenderAppend(a, b[..n]);
    }
  }

  lemma RenderOne(r: string)
    ensures Render([r]) == r + "\n"
  {
    assert [r][..0] == [];
  }

  lemma RenderCons(r: string, rs: seq<string>)
    ensures Render([r] + rs) == r + "\n" + Render(rs)
  {
    RenderAppend([r], rs);
    RenderOne(r);
  }

  /** A line without breaks, then "\n", is read back as that one line. */
  lemma ReadLinesLine(a: string, rest: string)
    requires NoBreak(a)
    ensures ReadLines(a + "\n" + rest) == [a] + ReadLines(rest)
  {
    var s := a + ("\n" + rest);
    assert s == a + "\n" + rest;
    BreakIndexOf(a, "\n" + rest);
    assert s[|a|] == '\n';
    assert s[..|a|] == a;
    assert s[|a| + 1..] == rest;
    assert ReadLines(s) == [s[..|a|]] + ReadLines(s[|a| + 1..]);
  }

  lemma {:induction false} BreakIndexOf(a: string, b: string)
    requires NoBreak(a)
    requires b == [] || IsBreak(b[0])
    ensures BreakIndex(a + b) == |a|
  {
    if a != [] {
      assert (a + b)[1..] == a[1..] + b;
      BreakIndexOf(a[1..], b);
    }
  }

  /** A non-empty text without breaks is read as exactly one line. */
  lemma ReadLinesLast(a: string)
    requires NoBreak(a) && a != []
    ensures ReadLines(a) == [a]
  {
    BreakIndexOf(a, []);
    assert a + [] == a;
  }

  /** Two break-free lines joined by "\n" read back as those two lines. */
  lemma ReadTwo(b: string, c: string)
    requires NoBreak(b) && NoBreak(c) && c != []
    ensures ReadLines(b + "\n" + c) == [b, c]
  {
    ReadLinesLine(b, c);
    ReadLinesLast(c);
  }

  /** Three break-free lines joined by "\n" read back as those three lines. */
  lemma ReadThree(a: string, b: string, c: string)
    requires NoBreak(a) && NoBreak(b) && NoBreak(c) && c != []
    ensures ReadLines(a + "\n" + b + "\n" + c) == [a, b, c]
  {
    var tail := b + "\n" + c;
    assert ReadLines(a + "\n" + tail) == [a] + [b, c] by {
      ReadTwo(b, c);
      ReadLinesLine(a, tail);
    }
    assert a + "\n" + b + "\n" + c == a + "\n" + tail;
  }

  lemma ConsSplit<T>(xs: seq<T>, ys: seq<T>)
    requires xs != []
    ensures [xs[0]] + (xs[1..] + ys) == xs + ys
  {
  }

  /** Written records without breaks, followed by more text. */
  lemma {:induction false} ReadRenderThen(rs: seq<string>, rest: string)
    requires AllNoBreak(rs)
    ensures ReadLines(Render(rs) + rest) == rs + ReadLines(rest)
  {
    if rs == [] {
      assert Render(rs) + rest == rest;
    } else {
      var head, tail := rs[0], Render(rs[1..]) + rest;
      assert Render(rs) + rest == head + "\n" + tail by {
        RenderCons(head, rs[1..]);
        assert [head] + rs[1..] == rs;
      }
      ReadLinesLine(head, tail);
      ReadRenderThen(rs[1..], rest);
      ConsSplit(rs, ReadLines(rest));
    }
  }

  /** Reading back what was written: records without breaks round-trip. */
  lemma ReadRender(rs: seq<string>)
    requires AllNoBreak(rs)
    ensures ReadLines(Render(rs)) == rs
  {
    ReadRenderThen(rs, "");
    assert Render(rs) + "" == Render(rs);
    assert rs + [] == rs;
  }
}
