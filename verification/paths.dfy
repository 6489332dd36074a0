/** Paths as the migration script handles them: strings cut into segments at
    the platform separator, here `/`. `Split` is JavaScript's
    `String.prototype.split` with a one-character separator, so a leading,
    trailing or doubled separator yields an empty segment. */
module Paths {

  const Sep: char := '/'

  /** The segments of `s` between separators. */
  function Split(s: string): (segs: seq<string>)
    ensures |segs| >= 1
    ensures forall j :: 0 <= j < |segs| ==> Sep !in segs[j]
  {
    if s == [] then [[]]
    else
      var rest := Split(s[1..]);
      if s[0] == Sep then [[]] + rest
      else [[s[0]] + rest[0]] + rest[1..]
  }

  /** The segments put back together with a separator between each pair. */
  function Join(segs: seq<string>): string
    requires |segs| >= 1
  {
    if |segs| == 1 then segs[0] else segs[0] + [Sep] + Join(segs[1..])
  }

  /** Joining the segments of a path gives the path back. */
  lemma {:induction false} JoinSplit(s: string)
    ensures Join(Split(s)) == s
  {
    if s != [] {
      var rest := Split(s[1..]);
      JoinSplit(s[1..]);
      if s[0] != Sep {
        if |rest| == 1 {
          assert [s[0]] + s[1..] == s;
        } else {
          assert Join(rest) == rest[0] + [Sep] + Join(rest[1..]);
          assert Join([[s[0]] + rest[0]] + rest[1..]) == [s[0]] + rest[0] + [Sep] + Join(rest[1..]);
          assert [s[0]] + s[1..] == s;
        }
      } else {
        assert [Sep] + s[1..] == s;
      }
    }
  }

  /** Splitting is the inverse of joining segments that hold no separator. */
  lemma {:induction false} SplitJoin(segs: seq<string>)
    requires |segs| >= 1
    requires forall j :: 0 <= j < |segs| ==> Sep !in segs[j]
    ensures Split(Join(segs)) == segs
  {
    if |segs| == 1 {
      SplitSegment(segs[0], []);
      assert segs[0] + [] == segs[0];
      assert Split([]) == [[]];
    } else {
      SplitJoin(segs[1..]);
      SplitSegment(segs[0], [Sep] + Join(segs[1..]));
      SplitSep(Join(segs[1..]));
      assert segs[0] + [Sep] + Join(segs[1..]) == segs[0] + ([Sep] + Join(segs[1..]));
      assert Split([Sep] + Join(segs[1..]))[0] == [];
      assert Split([Sep] + Join(segs[1..]))[1..] == segs[1..];
      assert segs[0] + [] == segs[0];
      assert [segs[0]] + segs[1..] == segs;
    }
  }

  /** A separator-free prefix is glued to the first segment of what follows. */
  lemma {:induction false} SplitSegment(a: string, b: string)
    requires Sep !in a
    ensures Split(a + b) == [a + Split(b)[0]] + Split(b)[1..]
  {
    if a != [] {
      assert (a + b)[0] == a[0];
      assert (a + b)[1..] == a[1..] + b;
      SplitSegment(a[1..], b);
      assert a[0] != Sep;
      assert [a[0]] + (a[1..] + Split(b)[0]) == a + Split(b)[0];
    } else {
      assert a + b == b;
      assert a + Split(b)[0] == Split(b)[0];
      assert [Split(b)[0]] + Split(b)[1..] == Split(b);
    }
  }

  lemma SplitSep(b: string)
    ensures Split([Sep] + b) == [[]] + Split(b)
  {
    assert ([Sep] + b)[1..] == b;
  }

  /** Splitting at a separator concatenates the segment lists, the two
      segments around the separator staying apart. */
  lemma {:induction false} SplitAppend(a: string, b: string)
    ensures Split(a + [Sep] + b) == Split(a) + Split(b)
  {
    if a == [] {
      assert a + [Sep] + b == [Sep] + b;
      SplitSep(b);
    } else {
      assert (a + [Sep] + b)[0] == a[0];
      assert (a + [Sep] + b)[1..] == a[1..] + [Sep] + b;
      SplitAppend(a[1..], b);
    }
  }

  /** A path is a single segment exactly when it holds no separator, and that
      segment is the path itself. */
  lemma {:induction false} SplitSingle(p: string)
    ensures |Split(p)| == 1 <==> Sep !in p
    ensures Sep !in p ==> Split(p) == [p]
  {
    if Sep !in p {
      SplitSegment(p, []);
      assert p + [] == p;
    } else {
      var i :| 0 <= i < |p| && p[i] == Sep;
      assert p == p[..i] + [Sep] + p[i + 1..];
      SplitAppend(p[..i], p[i + 1..]);
    }
  }

  /** `path.join` of a directory and a separator-free entry name: the
      entry's segments follow the directory's. */
  function PathJoin(dir: string, name: string): (p: string)
    ensures Split(p) == Split(dir) + Split(name)
  {
    SplitAppend(dir, name);
    dir + [Sep] + name
  }

  /** The number of segments, the measure the directory sort uses: at least
      one; `SplitSingle` says when it is exactly one. */
  function Depth(p: string): (d: nat)
    ensures d >= 1
  {
    |Split(p)|
  }

  /** `path.basename`: the last segment, which holds no separator; a
      separator-free path is its own base name. */
  function Basename(p: string): (b: string)
    ensures Sep !in b
    ensures Sep !in p ==> b == p
  {
    SplitSingle(p);
    var segs := Split(p);
    segs[|segs| - 1]
  }

  /** `path.dirname`: everything before the last separator, or "." when there
      is none. */
  function Dirname(p: string): (d: string)
    ensures Sep !in p ==> d == "."
  {
    SplitSingle(p);
    var segs := Split(p);
    if |segs| == 1 then "." else Join(segs[..|segs| - 1])
  }

  /** An entry joined under a directory adds one segment, and `Dirname` and
      `Basename` take the join apart again. */
  lemma {:induction false} PathJoinParts(dir: string, name: string)
    requires Sep !in name
    ensures Split(PathJoin(dir, name)) == Split(dir) + [name]
    ensures Depth(PathJoin(dir, name)) == Depth(dir) + 1
    ensures Basename(PathJoin(dir, name)) == name
    ensures Dirname(PathJoin(dir, name)) == dir
  {
    SplitAppend(dir, name);
    SplitSegment(name, []);
    assert name + [] == name;
    var segs := Split(PathJoin(dir, name));
    assert segs[..|segs| - 1] == Split(dir);
    JoinSplit(dir);
  }

  /** A path with more than one segment is its directory joined with its
      base name. */
  lemma {:induction false} DirnameBasename(p: string)
    requires Depth(p) > 1
    ensures PathJoin(Dirname(p), Basename(p)) == p
  {
    var segs := Split(p);
    var n := |segs|;
    JoinAppendLast(segs[..n - 1], segs[n - 1]);
    assert segs[..n - 1] + [segs[n - 1]] == segs;
    JoinSplit(p);
  }

  lemma {:induction false} JoinAppendLast(segs: seq<string>, last: string)
    requires |segs| >= 1
    ensures Join(segs + [last]) == Join(segs) + [Sep] + last
  {
    if |segs| == 1 {
      assert segs + [last] == [segs[0], last];
    } else {
      assert (segs + [last])[1..] == segs[1..] + [last];
      JoinAppendLast(segs[1..], last);
    }
  }
}
