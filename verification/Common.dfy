/** Optional values and results, string order, and splitting at a separator. */
module Common {
  datatype Option<+T> = None | Some(value: T)

  datatype Result<+T, +E> = Ok(value: T) | Err(error: E)

  /** No element occurs at two positions. */
  ghost predicate Distinct<T>(s: seq<T>) {
    forall i, j :: 0 <= i < j < |s| ==> s[i] != s[j]
  }

  // ---------------------------------------------------------------------------
  // `str::cmp`: strings are ordered by their first differing character.

  predicate Less(a: string, b: string) {
    if b == [] then false
    else if a == [] then true
    else if a[0] != b[0] then a[0] < b[0]
    else Less(a[1..], b[1..])
  }

  lemma {:induction false} LessIrreflexive(a: string)
    ensures !Less(a, a)
  {
    if a != [] { LessIrreflexive(a[1..]); }
  }

  lemma {:induction false} LessTotal(a: string, b: string)
    ensures Less(a, b) || Less(b, a) || a == b
  {
    if a != [] && b != [] && a[0] == b[0] {
      LessTotal(a[1..], b[1..]);
      assert a == [a[0]] + a[1..] && b == [b[0]] + b[1..];
    }
  }

  lemma {:induction false} LessTransitive(a: string, b: string, c: string)
    requires Less(a, b) && Less(b, c)
    ensures Less(a, c)
  {
    if a != [] && a[0] == b[0] && b[0] == c[0] {
      LessTransitive(a[1..], b[1..], c[1..]);
    }
  }

  /** A common prefix does not affect the order. */
  lemma {:induction false} LessAfterPrefix(p: string, a: string, b: string)
    ensures Less(p + a, p + b) == Less(a, b)
  {
    if p == [] {
      assert p + a == a && p + b == b;
    } else {
      assert (p + a)[1..] == p[1..] + a && (p + b)[1..] == p[1..] + b;
      LessAfterPrefix(p[1..], a, b);
    }
  }

  /** Between a string and an extension of it, only extensions that branch off no higher sort. */
  lemma {:induction false} BetweenExtends(p: string, m: string, d: string)
    requires p < d && Less(p, m) && Less(m, d)
    ensures p < m && m[|p|] <= d[|p|]
  {
    if p != [] {
      BetweenExtends(p[1..], m[1..], d[1..]);
      assert m == [m[0]] + m[1..] && p == [p[0]] + p[1..];
    }
  }

  // ---------------------------------------------------------------------------
  // Splitting

  /** The pieces of `s` between occurrences of `sep`; always at least one. */
  function Split<T(==)>(s: seq<T>, sep: T): (pieces: seq<seq<T>>)
    ensures pieces != []
  {
    if s == [] then [[]]
    else
      var rest := Split(s[1..], sep);
      if s[0] == sep then [[]] + rest else [[s[0]] + rest[0]] + rest[1..]
  }

  function Last<T>(s: seq<T>): T
    requires s != []
  {
    s[|s| - 1]
  }

  function Init<T>(s: seq<T>): seq<T>
    requires s != []
  {
    s[..|s| - 1]
  }

  lemma InitAndLast<T>(s: seq<T>)
    requires s != []
    ensures s == Init(s) + [Last(s)]
  {
  }

  lemma Associative<T>(a: seq<T>, b: seq<T>, c: seq<T>)
    ensures a + b + c == a + (b + c)
  {
  }

  /** Piece lists of adjacent texts: the last piece of one continues into the first of the other. */
  function Glue<T>(x: seq<seq<T>>, y: seq<seq<T>>): seq<seq<T>>
    requires x != [] && y != []
  {
    Init(x) + [Last(x) + y[0]] + y[1..]
  }

  /** Appending text only touches the last piece. */
  lemma {:induction false} SplitAppend<T>(a: seq<T>, b: seq<T>, sep: T)
    ensures Split(a + b, sep) == Glue(Split(a, sep), Split(b, sep))
  {
    if a == [] {
      assert a + b == b && [] + Split(b, sep)[0] == Split(b, sep)[0];
    } else {
      assert (a + b)[1..] == a[1..] + b;
      SplitAppend(a[1..], b, sep);
      GlueFirst(a[0], Split(a[1..], sep), Split(b, sep));
    }
  }

  lemma GlueFirst<T>(c: T, x: seq<seq<T>>, y: seq<seq<T>>)
    requires x != [] && y != []
    ensures Glue([[]] + x, y) == [[]] + Glue(x, y)
    ensures Glue([[c] + x[0]] + x[1..], y) == [[c] + Glue(x, y)[0]] + Glue(x, y)[1..]
  {
    assert Init([[]] + x) == [[]] + Init(x);
    var cx := [[c] + x[0]] + x[1..];
    if |x| == 1 {
      assert [c] + (x[0] + y[0]) == [c] + x[0] + y[0];
    } else {
      assert Init(cx) == [[c] + x[0]] + Init(x)[1..];
    }
  }

  /** Pieces already taken off the front are not affected by what is appended. */
  lemma GlueAfter<T>(front: seq<seq<T>>, x: seq<seq<T>>, y: seq<seq<T>>)
    requires x != [] && y != []
    ensures Glue(front + x, y) == front + Glue(x, y)
  {
  }

  lemma SplitExtend<T>(body: seq<T>, front: seq<seq<T>>, buffer: seq<T>, more: seq<T>, sep: T)
    requires Split(body, sep) == front + Split(buffer, sep)
    ensures Split(body + more, sep) == front + Split(buffer + more, sep)
  {
    SplitAppend(body, more, sep);
    SplitAppend(buffer, more, sep);
    GlueAfter(front, Split(buffer, sep), Split(more, sep));
  }

  /** Complete pieces stay complete. */
  lemma CompletePiecesStay<T>(body: seq<T>, more: seq<T>, sep: T) returns (tail: seq<seq<T>>)
    ensures tail != [] && Split(body + more, sep) == Init(Split(body, sep)) + tail
  {
    SplitAppend(body, more, sep);
    var x, y := Split(body, sep), Split(more, sep);
    tail := [Last(x) + y[0]] + y[1..];
    assert Glue(x, y) == Init(x) + tail;
  }

  lemma {:induction false} SplitWithoutSeparator<T>(s: seq<T>, sep: T)
    requires sep !in s
    ensures Split(s, sep) == [s]
  {
    if s != [] {
      SplitWithoutSeparator(s[1..], sep);
      assert s == [s[0]] + s[1..];
    }
  }

  lemma SplitAtSeparator<T>(a: seq<T>, sep: T, b: seq<T>)
    ensures Split(a + [sep] + b, sep) == Split(a, sep) + Split(b, sep)
  {
    SplitAppend(a, [sep] + b, sep);
    assert a + [sep] + b == a + ([sep] + b);
    assert ([sep] + b)[1..] == b;
    assert Split([sep] + b, sep) == [[]] + Split(b, sep);
    var sa := Split(a, sep);
    assert Last(sa) + [] == Last(sa);
    assert sa == Init(sa) + [Last(sa)];
  }

  /** Inverse of `Split`. */
  function Join<T>(pieces: seq<seq<T>>, sep: T): seq<T>
    requires pieces != []
  {
    if |pieces| == 1 then pieces[0] else pieces[0] + [sep] + Join(pieces[1..], sep)
  }

  lemma {:induction false} JoinSplit<T>(s: seq<T>, sep: T)
    ensures Join(Split(s, sep), sep) == s
  {
    if s != [] {
      JoinSplit(s[1..], sep);
      var rest := Split(s[1..], sep);
      assert s == [s[0]] + s[1..];
      if s[0] == sep {
        assert ([[]] + rest)[1..] == rest;
      } else {
        var first := [s[0]] + rest[0];
        assert ([first] + rest[1..])[1..] == rest[1..];
        if |rest| > 1 {
          assert first + [sep] + Join(rest[1..], sep) == [s[0]] + (rest[0] + [sep] + Join(rest[1..], sep));
        }
      }
    }
  }

  lemma {:induction false} JoinConcat<T>(a: seq<seq<T>>, b: seq<seq<T>>, sep: T)
    requires a != [] && b != []
    ensures Join(a + b, sep) == Join(a, sep) + [sep] + Join(b, sep)
  {
    assert (a + b)[1..] == a[1..] + b;
    if |a| == 1 {
      assert a[1..] + b == b;
    } else {
      JoinConcat(a[1..], b, sep);
      assert (a + b)[0] == a[0];
    }
  }
}
