/** Newline framing of a connection's receive buffer: the buffer is cut at every line feed
    into complete lines, and whatever follows the last line feed waits for more data. */
module Framing {
  import opened Text

  /** The complete lines found in a buffer, without their line feeds, and the unterminated
      tail that stays buffered. */
  datatype Cut = Cut(lines: seq<string>, rest: string)

  /** Cuts `s` exactly as the receive loop does: repeatedly take everything before the first
      line feed as a line and continue after it, until no line feed is left. */
  function Split(s: string): Cut
    decreases |s|
  {
    var i := IndexOf(s, '\n');
    if i < 0 then Cut([], s)
    else
      var tail := Split(s[i + 1..]);
      Cut([s[..i]] + tail.lines, tail.rest)
  }

  /** The text a cut came from: every line followed by a line feed, then the tail. */
  function Join(lines: seq<string>, rest: string): string {
    if lines == [] then rest else lines[0] + "\n" + Join(lines[1..], rest)
  }

  /** No line and no tail contains a line feed. */
  predicate Clean(c: Cut) {
    (forall i | 0 <= i < |c.lines| :: '\n' !in c.lines[i]) && '\n' !in c.rest
  }

  /** Split leaves no line feed behind: no line and not the tail contains one. */
  lemma {:induction false} SplitClean(s: string)
    ensures Clean(Split(s))
    decreases |s|
  {
    var i := IndexOf(s, '\n');
    if i >= 0 {
      var tail := Split(s[i + 1..]);
      SplitClean(s[i + 1..]);
      var lines := [s[..i]] + tail.lines;
      assert Split(s) == Cut(lines, tail.rest);
      forall k | 0 <= k < |lines| ensures '\n' !in lines[k] {
        if k > 0 {
          assert lines[k] == tail.lines[k - 1];
        }
      }
    }
  }

  lemma SplitAtFirst(s: string, i: nat)
    requires i < |s| && i == IndexOf(s, '\n')
    ensures Split(s) == Cut([s[..i]] + Split(s[i + 1..]).lines, Split(s[i + 1..]).rest)
  {
  }

  lemma JoinCons(line: string, lines: seq<string>, rest: string)
    ensures Join([line] + lines, rest) == line + "\n" + Join(lines, rest)
  {
    assert ([line] + lines)[1..] == lines;
  }

  lemma CutAt(s: string, i: nat)
    requires i < |s| && s[i] == '\n'
    ensures s == s[..i] + "\n" + s[i + 1..]
  {
  }

  /** Split loses nothing: joining its cut gives back the buffer. */
  lemma {:induction false} SplitJoin(s: string)
    ensures Join(Split(s).lines, Split(s).rest) == s
    decreases |s|
  {
    var i := IndexOf(s, '\n');
    if i >= 0 {
      var t := s[i + 1..];
      calc {
        Join(Split(s).lines, Split(s).rest);
        { SplitAtFirst(s, i); }
        Join([s[..i]] + Split(t).lines, Split(t).rest);
        { JoinCons(s[..i], Split(t).lines, Split(t).rest); }
        s[..i] + "\n" + Join(Split(t).lines, Split(t).rest);
        { SplitJoin(t); }
        s[..i] + "\n" + t;
        { CutAt(s, i); }
        s;
      }
    }
  }

  /** A line without a line feed, a line feed, then more text: the first line is cut off. */
  lemma SplitCons(x: string, y: string)
    requires '\n' !in x
    ensures Split(x + "\n" + y) == Cut([x] + Split(y).lines, Split(y).rest)
  {
    var s := x + "\n" + y;
    assert s[|x|] == '\n';
    assert forall k | 0 <= k < |x| :: s[k] == x[k];
    assert IndexOf(s, '\n') == |x|;
    SplitAtFirst(s, |x|);
    assert s[..|x|] == x;
    assert s[|x| + 1..] == y;
  }

  /** Conversely, a clean cut is recovered by splitting its join, so Split is the only clean
      way to cut a buffer into lines and a tail. */
  lemma {:induction false} JoinSplit(lines: seq<string>, rest: string)
    requires Clean(Cut(lines, rest))
    ensures Split(Join(lines, rest)) == Cut(lines, rest)
    decreases |lines|
  {
    if lines != [] {
      var tail := Join(lines[1..], rest);
      assert Clean(Cut(lines[1..], rest)) by {
        forall i | 0 <= i < |lines| - 1 ensures '\n' !in lines[1..][i] {
          assert lines[1..][i] == lines[i + 1];
        }
      }
      calc {
        Split(Join(lines, rest));
        Split(lines[0] + "\n" + tail);
        { assert '\n' !in lines[0];
          SplitCons(lines[0], tail); }
        Cut([lines[0]] + Split(tail).lines, Split(tail).rest);
        { JoinSplit(lines[1..], rest); }
        Cut([lines[0]] + lines[1..], rest);
        { assert [lines[0]] + lines[1..] == lines; }
        Cut(lines, rest);
      }
    } else {
      assert IndexOf(rest, '\n') == -1;
    }
  }

  /** Text appended after a join lands in its tail. */
  lemma {:induction false} JoinAppend(lines: seq<string>, rest: string, t: string)
    ensures Join(lines, rest) + t == Join(lines, rest + t)
    decreases |lines|
  {
    if lines != [] {
      JoinAppend(lines[1..], rest, t);
    }
  }

  /** Joining two groups of lines is joining the first in front of the second's join. */
  lemma {:induction false} JoinConcat(l1: seq<string>, l2: seq<string>, rest: string)
    ensures Join(l1 + l2, rest) == Join(l1, Join(l2, rest))
    decreases |l1|
  {
    if l1 != [] {
      assert (l1 + l2)[0] == l1[0];
      assert (l1 + l2)[1..] == l1[1..] + l2;
      JoinConcat(l1[1..], l2, rest);
      calc {
        Join(l1 + l2, rest);
        l1[0] + "\n" + Join(l1[1..] + l2, rest);
        l1[0] + "\n" + Join(l1[1..], Join(l2, rest));
        Join(l1, Join(l2, rest));
      }
    } else {
      assert l1 + l2 == l2;
    }
  }

  /** Appending a chunk to a buffer: the lines of `s + t` are the lines of `s` followed by the
      lines found once `t` is appended to the tail of `s`, and the tail is that of the second
      cut. This is what lets the receive loop run once per chunk. */
  lemma SplitAppend(s: string, t: string)
    ensures var c1 := Split(s);
            var c2 := Split(c1.rest + t);
            Split(s + t) == Cut(c1.lines + c2.lines, c2.rest)
  {
    var c1 := Split(s);
    var c2 := Split(c1.rest + t);
    SplitJoin(s);
    SplitClean(s);
    SplitJoin(c1.rest + t);
    SplitClean(c1.rest + t);
    JoinAppend(c1.lines, c1.rest, t);
    JoinConcat(c1.lines, c2.lines, c2.rest);
    assert Clean(Cut(c1.lines + c2.lines, c2.rest)) by {
      forall i | 0 <= i < |c1.lines| + |c2.lines| ensures '\n' !in (c1.lines + c2.lines)[i] {
        if i >= |c1.lines| {
          assert (c1.lines + c2.lines)[i] == c2.lines[i - |c1.lines|];
        }
      }
    }
    JoinSplit(c1.lines + c2.lines, c2.rest);
  }

  /** All chunks of a stream, in order, as one string. */
  function Concat(chunks: seq<string>): string {
    if chunks == [] then "" else chunks[0] + Concat(chunks[1..])
  }

  lemma ConcatFirst(buffer: string, chunks: seq<string>)
    requires chunks != []
    ensures (buffer + chunks[0]) + Concat(chunks[1..]) == buffer + Concat(chunks)
  {
  }

  /** Delivers `chunks` one after another to a connection whose buffer holds `buffer`:
      each delivery appends the chunk and cuts off the complete lines. Returns all lines in
      the order they were cut and the final buffer. */
  function Feed(buffer: string, chunks: seq<string>): Cut
    decreases |chunks|
  {
    if chunks == [] then Cut([], buffer)
    else
      var now := Split(buffer + chunks[0]);
      var later := Feed(now.rest, chunks[1..]);
      Cut(now.lines + later.lines, later.rest)
  }

  /** The way a stream is cut into chunks does not matter: starting from a buffer without a
      line feed (as every buffer between deliveries is), delivering the chunks one by one
      yields the same lines, in the same order, and the same final buffer as delivering
      their concatenation at once. */
  lemma {:induction false} FeedIsSplit(buffer: string, chunks: seq<string>)
    requires '\n' !in buffer
    ensures Feed(buffer, chunks) == Split(buffer + Concat(chunks))
    decreases |chunks|
  {
    if chunks == [] {
      assert buffer + "" == buffer;
      assert IndexOf(buffer, '\n') == -1;
    } else {
      var now := Split(buffer + chunks[0]);
      var more := Concat(chunks[1..]);
      calc {
        Feed(buffer, chunks);
        Cut(now.lines + Feed(now.rest, chunks[1..]).lines, Feed(now.rest, chunks[1..]).rest);
        { SplitClean(buffer + chunks[0]);
          FeedIsSplit(now.rest, chunks[1..]); }
        Cut(now.lines + Split(now.rest + more).lines, Split(now.rest + more).rest);
        { SplitAppend(buffer + chunks[0], more); }
        Split((buffer + chunks[0]) + more);
        { ConcatFirst(buffer, chunks); }
        Split(buffer + Concat(chunks));
      }
    }
  }
}
