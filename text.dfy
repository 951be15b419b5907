/** The string operations the manifest parser relies on, with the semantics of
    the Python built-ins they stand for: `str.split` with a one-character
    separator, `os.path.join` on a POSIX host, negative slices `s[-k:]`, the
    substring test `t in s` and the ordering of `str` values. */
module Text {

  /** `s` ends with `t`. */
  predicate EndsWith(s: string, t: string)
  {
    |t| <= |s| && s[|s| - |t|..] == t
  }

  /** Python's `t in s` for strings: `t` occurs in `s` as a contiguous substring. */
  predicate Contains(s: string, t: string)
    decreases |s|
  {
    |t| <= |s| && (s[..|t|] == t || Contains(s[1..], t))
  }

  /** Python's `s[-k:]` for k > 0: the last `k` characters, or all of `s` when it is shorter. */
  function Suffix(s: string, k: nat): (r: string)
    ensures |r| == if |s| < k then |s| else k
    ensures EndsWith(s, r)
  {
    if |s| < k then s else s[|s| - k..]
  }

  // ---------------------------------------------------------------------------
  // str.split and its inverse

  /** The inverse of `Split`: the pieces glued back with the separator between them. */
  function JoinWith(parts: seq<string>, sep: char): string
  {
    if |parts| == 0 then ""
    else if |parts| == 1 then parts[0]
    else parts[0] + [sep] + JoinWith(parts[1..], sep)
  }

  /** Python's `s.split(sep)`: the maximal runs between occurrences of `sep`;
      the empty string gives one empty piece. */
  function Split(s: string, sep: char): (r: seq<string>)
    ensures |r| >= 1
    ensures forall i :: 0 <= i < |r| ==> sep !in r[i]
    decreases |s|
  {
    if |s| == 0 then [""]
    else
      var rest := Split(s[1..], sep);
      if s[0] == sep then [""] + rest
      else [[s[0]] + rest[0]] + rest[1..]
  }

  /** Joining the pieces of a split gives back the original string. */
  lemma {:induction false} SplitJoin(s: string, sep: char)
    ensures JoinWith(Split(s, sep), sep) == s
    decreases |s|
  {
    if |s| > 0 {
      SplitJoin(s[1..], sep);
      var rest := Split(s[1..], sep);
      assert s == [s[0]] + s[1..];
      if s[0] == sep {
        assert ([""] + rest)[1..] == rest;
      } else {
        JoinPrepend(s[0], rest, sep);
      }
    }
  }

  /** Prepending a character to the first piece prepends it to the join. */
  lemma {:induction false} JoinPrepend(c: char, parts: seq<string>, sep: char)
    requires |parts| >= 1
    ensures JoinWith([[c] + parts[0]] + parts[1..], sep) == [c] + JoinWith(parts, sep)
  {
    var r := [[c] + parts[0]] + parts[1..];
    if |parts| > 1 {
      assert r[1..] == parts[1..];
      assert JoinWith(r, sep) == [c] + parts[0] + [sep] + JoinWith(parts[1..], sep);
    }
  }

  /** Splitting the join of separator-free pieces gives the pieces back. */
  lemma {:induction false} JoinSplit(parts: seq<string>, sep: char)
    requires |parts| >= 1
    requires forall i :: 0 <= i < |parts| ==> sep !in parts[i]
    ensures Split(JoinWith(parts, sep), sep) == parts
    decreases |parts|
  {
    if |parts| == 1 {
      SplitWithoutSeparator(parts[0], sep);
    } else {
      JoinSplit(parts[1..], sep);
      SplitAtSeparator(parts[0], JoinWith(parts[1..], sep), sep);
      assert parts == [parts[0]] + parts[1..];
    }
  }

  lemma {:induction false} SplitWithoutSeparator(s: string, sep: char)
    requires sep !in s
    ensures Split(s, sep) == [s]
    decreases |s|
  {
    if |s| > 0 {
      assert sep !in s[1..];
      SplitWithoutSeparator(s[1..], sep);
      assert s == [s[0]] + s[1..];
    }
  }

  lemma {:induction false} SplitAtSeparator(a: string, b: string, sep: char)
    requires sep !in a
    ensures Split(a + [sep] + b, sep) == [a] + Split(b, sep)
    decreases |a|
  {
    var s := a + [sep] + b;
    if |a| == 0 {
      assert s == [sep] + b;
      assert s[1..] == b;
    } else {
      assert sep !in a[1..];
      SplitAtSeparator(a[1..], b, sep);
      assert s[1..] == a[1..] + [sep] + b;
      assert a == [a[0]] + a[1..];
    }
  }

  /** A split has one more piece than there are separators. */
  lemma {:induction false} SplitCount(s: string, sep: char)
    ensures |Split(s, sep)| == multiset(s)[sep] + 1
    decreases |s|
  {
    if |s| > 0 {
      SplitCount(s[1..], sep);
      assert s == [s[0]] + s[1..];
      assert multiset(s) == multiset{s[0]} + multiset(s[1..]);
    }
  }

  /** Joining two non-empty runs of pieces puts one separator between them. */
  lemma {:induction false} JoinAppend(a: seq<string>, b: seq<string>, sep: char)
    requires |a| >= 1 && |b| >= 1
    ensures JoinWith(a + b, sep) == JoinWith(a, sep) + [sep] + JoinWith(b, sep)
    decreases |a|
  {
    if |a| == 1 {
      assert (a + b)[1..] == b;
    } else {
      JoinAppend(a[1..], b, sep);
      assert (a + b)[1..] == a[1..] + b;
    }
  }

  /** The join of all pieces ends with the join of the run of pieces from `lo`
      up to the last one, followed by the last piece. */
  lemma {:induction false} JoinEndsWithRun(parts: seq<string>, sep: char, lo: nat)
    requires 0 < lo < |parts| - 1
    ensures EndsWith(JoinWith(parts, sep),
                     [sep] + JoinWith(parts[lo..|parts| - 1], sep) + [sep] + parts[|parts| - 1])
  {
    var n := |parts|;
    var head, run := parts[..lo], parts[lo..n - 1];
    var tail := [sep] + JoinWith(run, sep) + [sep] + parts[n - 1];
    assert parts == head + (run + [parts[n - 1]]);
    JoinThree(head, run, parts[n - 1], sep);
    EndsWithOfConcat(JoinWith(parts, sep), JoinWith(head, sep), tail);
  }

  lemma {:induction false} EndsWithOfConcat(s: string, prefix: string, tail: string)
    requires s == prefix + tail
    ensures EndsWith(s, tail)
  {
    assert s[|prefix|..] == tail;
  }

  lemma {:induction false} JoinThree(head: seq<string>, run: seq<string>, x: string, sep: char)
    requires |head| >= 1 && |run| >= 1
    ensures JoinWith(head + (run + [x]), sep) == JoinWith(head, sep) + ([sep] + JoinWith(run, sep) + [sep] + x)
  {
    JoinAppend(run, [x], sep);
    JoinAppend(head, run + [x], sep);
  }


  /** The join ends with the last piece, preceded by the separator when there are two or more. */
  lemma {:induction false} JoinEndsWithLast(parts: seq<string>, sep: char)
    requires |parts| >= 2
    ensures EndsWith(JoinWith(parts, sep), [sep] + parts[|parts| - 1])
    ensures EndsWith(JoinWith(parts, sep), parts[|parts| - 1])
  {
    var n := |parts|;
    assert parts == parts[..n - 1] + [parts[n - 1]];
    JoinAppend(parts[..n - 1], [parts[n - 1]], sep);
  }

  /** A string ending in the separator splits into the pieces of the rest plus
      one empty piece. */
  lemma {:induction false} SplitTerminated(a: string, sep: char)
    ensures Split(a + [sep], sep) == Split(a, sep) + [""]
    decreases |a|
  {
    var s := a + [sep];
    if |a| == 0 {
      assert s[1..] == "";
      assert Split(s, sep) == [""] + Split("", sep);
    } else {
      SplitTerminated(a[1..], sep);
      assert s[1..] == a[1..] + [sep];
      var rest := Split(a[1..], sep);
      assert Split(s[1..], sep) == rest + [""];
      if a[0] != sep {
        assert Split(s, sep) == [[a[0]] + rest[0]] + (rest + [""])[1..];
        assert Split(a, sep) == [[a[0]] + rest[0]] + rest[1..];
        assert (rest + [""])[1..] == rest[1..] + [""];
      }
    }
  }

  // ---------------------------------------------------------------------------
  // os.path.join (posixpath)

  /** One step of `posixpath.join`: a piece starting with '/' restarts the path;
      otherwise a '/' is inserted unless the path is empty or already ends in one. */
  function JoinStep(path: string, piece: string): string
  {
    if |piece| > 0 && piece[0] == '/' then piece
    else if |path| == 0 || path[|path| - 1] == '/' then path + piece
    else path + "/" + piece
  }

  function JoinFrom(path: string, pieces: seq<string>): string
    decreases |pieces|
  {
    if |pieces| == 0 then path else JoinFrom(JoinStep(path, pieces[0]), pieces[1..])
  }

  /** `os.path.join(*pieces)`; calling it with no argument raises, hence the requires. */
  function PosixJoin(pieces: seq<string>): string
    requires |pieces| >= 1
  {
    JoinFrom(pieces[0], pieces[1..])
  }

  /** `os.path.join(a, b)` is one join step. */
  lemma PosixJoinTwo(a: string, b: string)
    ensures PosixJoin([a, b]) == JoinStep(a, b)
  {
    assert [a, b][1..] == [b];
    calc {
      PosixJoin([a, b]);
      JoinFrom(a, [b]);
      { assert [b][1..] == []; }
      JoinFrom(JoinStep(a, b), []);
    }
  }

  /** `os.path.join(a, b, c)` is two join steps. */
  lemma PosixJoinThree(a: string, b: string, c: string)
    ensures PosixJoin([a, b, c]) == JoinStep(JoinStep(a, b), c)
  {
    assert [a, b, c][1..] == [b, c];
    calc {
      PosixJoin([a, b, c]);
      JoinFrom(a, [b, c]);
      { assert [b, c][1..] == [c]; }
      JoinFrom(JoinStep(a, b), [c]);
      { assert [c][1..] == []; }
      JoinFrom(JoinStep(JoinStep(a, b), c), []);
    }
  }

  /** For non-empty pieces without '/', `os.path.join` is gluing with '/'. */
  lemma {:induction false} PosixJoinPlain(pieces: seq<string>)
    requires |pieces| >= 1
    requires forall i :: 0 <= i < |pieces| ==> |pieces[i]| > 0 && '/' !in pieces[i]
    ensures PosixJoin(pieces) == JoinWith(pieces, '/')
  {
    JoinFromPlain(pieces[0], pieces[1..]);
    if |pieces| > 1 {
      assert pieces == [pieces[0]] + pieces[1..];
    }
  }

  lemma {:induction false} JoinFromPlain(path: string, rest: seq<string>)
    requires |path| > 0 && path[|path| - 1] != '/'
    requires forall i :: 0 <= i < |rest| ==> |rest[i]| > 0 && '/' !in rest[i]
    ensures JoinFrom(path, rest) == if |rest| == 0 then path else path + "/" + JoinWith(rest, '/')
    decreases |rest|
  {
    if |rest| > 0 {
      var next := path + "/" + rest[0];
      assert rest[0][|rest[0]| - 1] in rest[0];
      assert JoinStep(path, rest[0]) == next;
      assert forall i :: 0 <= i < |rest[1..]| ==> rest[1..][i] == rest[i + 1];
      JoinFromPlain(next, rest[1..]);
      assert next[|next| - 1] == rest[0][|rest[0]| - 1];
      if |rest| > 1 {
        assert JoinWith(rest, '/') == rest[0] + "/" + JoinWith(rest[1..], '/');
      }
    }
  }

  /** The joined path always ends with the last piece (here: the product name). */
  lemma {:induction false} PosixJoinEndsWithLast(pieces: seq<string>)
    requires |pieces| >= 1
    ensures EndsWith(PosixJoin(pieces), pieces[|pieces| - 1])
  {
    JoinFromEndsWithLast(pieces[0], pieces[1..]);
  }

  lemma {:induction false} JoinFromEndsWithLast(path: string, rest: seq<string>)
    ensures EndsWith(JoinFrom(path, rest), if |rest| == 0 then path else rest[|rest| - 1])
    decreases |rest|
  {
    if |rest| > 0 {
      JoinFromEndsWithLast(JoinStep(path, rest[0]), rest[1..]);
    }
  }

  // ---------------------------------------------------------------------------
  // Ordering of str values

  /** Python's `a <= b` on `str`: lexicographic by code point. */
  predicate StrLe(a: string, b: string)
    decreases |a|
  {
    if |a| == 0 then true
    else if |b| == 0 then false
    else if a[0] != b[0] then a[0] < b[0]
    else StrLe(a[1..], b[1..])
  }

  lemma {:induction false} StrLeTotal(a: string, b: string)
    ensures StrLe(a, b) || StrLe(b, a)
    decreases |a|
  {
    if |a| > 0 && |b| > 0 && a[0] == b[0] {
      StrLeTotal(a[1..], b[1..]);
    }
  }

  lemma {:induction false} StrLeTrans(a: string, b: string, c: string)
    requires StrLe(a, b) && StrLe(b, c)
    ensures StrLe(a, c)
    decreases |a|
  {
    if |a| > 0 && |b| > 0 && |c| > 0 && a[0] == b[0] && b[0] == c[0] {
      StrLeTrans(a[1..], b[1..], c[1..]);
    }
  }

  lemma {:induction false} StrLeAntisymmetric(a: string, b: string)
    requires StrLe(a, b) && StrLe(b, a)
    ensures a == b
    decreases |a|
  {
    if |a| > 0 && |b| > 0 {
      StrLeAntisymmetric(a[1..], b[1..]);
      assert a == [a[0]] + a[1..] && b == [b[0]] + b[1..];
    }
  }
}
