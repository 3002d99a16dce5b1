/**
 * Go strings are sequences of bytes. A byte is modelled as a character below 256,
 * so that string literals can be written directly and the order on bytes is the
 * order on characters.
 */
module Text {

  type byte = c: char | c as int < 256 witness 'a'
  type Str = seq<byte>

  /** Go's `<=` on strings (and the order sort.Strings uses): byte-wise lexicographic. */
  predicate Below(a: Str, b: Str)
  {
    |a| == 0 || (|b| > 0 && (a[0] < b[0] || (a[0] == b[0] && Below(a[1..], b[1..]))))
  }

  lemma BelowReflexive(a: Str)
    ensures Below(a, a)
  {
  }

  lemma BelowAntisymmetric(a: Str, b: Str)
    requires Below(a, b) && Below(b, a)
    ensures a == b
  {
    if |a| > 0 {
      BelowAntisymmetric(a[1..], b[1..]);
    }
  }

  lemma BelowTransitive(a: Str, b: Str, c: Str)
    requires Below(a, b) && Below(b, c)
    ensures Below(a, c)
  {
    if |a| > 0 && a[0] == b[0] && b[0] == c[0] {
      BelowTransitive(a[1..], b[1..], c[1..]);
    }
  }

  lemma BelowTotal(a: Str, b: Str)
    ensures Below(a, b) || Below(b, a)
  {
    if |a| > 0 && |b| > 0 && a[0] == b[0] {
      BelowTotal(a[1..], b[1..]);
    }
  }

  /** strings.Split(s, sep) for a one-byte separator: the pieces between separators. */
  function Split(s: Str, sep: byte): (r: seq<Str>)
    ensures |r| >= 1
    decreases |s|
  {
    if |s| == 0 then [[]]
    else if s[0] == sep then [[]] + Split(s[1..], sep)
    else
      var t := Split(s[1..], sep);
      [[s[0]] + t[0]] + t[1..]
  }

  /** strings.Join(ts, sep) for a one-byte separator. */
  function Join(ts: seq<Str>, sep: byte): Str
  {
    if |ts| == 0 then []
    else if |ts| == 1 then ts[0]
    else ts[0] + [sep] + Join(ts[1..], sep)
  }

  /** strings.Replace(s, [c], rep, -1): every occurrence of the byte c becomes rep. */
  function ReplaceAll(s: Str, c: byte, rep: Str): Str
  {
    if |s| == 0 then []
    else (if s[0] == c then rep else [s[0]]) + ReplaceAll(s[1..], c, rep)
  }

  /** No piece of a split contains the separator. */
  lemma {:induction false} SplitPiecesFree(s: Str, sep: byte)
    ensures forall i | 0 <= i < |Split(s, sep)| :: sep !in Split(s, sep)[i]
    decreases |s|
  {
    if |s| > 0 {
      SplitPiecesFree(s[1..], sep);
    }
  }

  /** Joining the pieces of a split gives back the string. */
  lemma {:induction false} JoinSplit(s: Str, sep: byte)
    ensures Join(Split(s, sep), sep) == s
    decreases |s|
  {
    if |s| > 0 {
      JoinSplit(s[1..], sep);
      var t := Split(s[1..], sep);
      if s[0] != sep && |t| > 1 {
        assert Join(Split(s, sep), sep) == [s[0]] + t[0] + [sep] + Join(t[1..], sep);
        assert Join(t, sep) == t[0] + [sep] + Join(t[1..], sep);
      }
    }
  }

  lemma {:induction false} SplitNoSeparator(s: Str, sep: byte)
    requires sep !in s
    ensures Split(s, sep) == [s]
    decreases |s|
  {
    if |s| > 0 {
      SplitNoSeparator(s[1..], sep);
      assert [s[0]] + s[1..] == s;
    }
  }

  lemma {:induction false} SplitAfterPiece(a: Str, sep: byte, b: Str)
    requires sep !in a
    ensures Split(a + [sep] + b, sep) == [a] + Split(b, sep)
    decreases |a|
  {
    if |a| == 0 {
      assert a + [sep] + b == [sep] + b;
      assert ([sep] + b)[1..] == b;
    } else {
      assert (a + [sep] + b)[1..] == a[1..] + [sep] + b;
      SplitAfterPiece(a[1..], sep, b);
      assert [a[0]] + a[1..] == a;
    }
  }

  /** Splitting a join of separator-free pieces gives back the pieces. */
  lemma {:induction false} SplitJoin(ts: seq<Str>, sep: byte)
    requires |ts| >= 1
    requires forall i | 0 <= i < |ts| :: sep !in ts[i]
    ensures Split(Join(ts, sep), sep) == ts
    decreases |ts|
  {
    if |ts| == 1 {
      SplitNoSeparator(ts[0], sep);
    } else {
      SplitJoin(ts[1..], sep);
      SplitAfterPiece(ts[0], sep, Join(ts[1..], sep));
    }
  }

  /** A byte that occurs neither in s nor in rep does not occur in the replacement's output. */
  lemma {:induction false} ReplaceAllAvoids(s: Str, c: byte, rep: Str, d: byte)
    requires d !in rep && (d in s ==> d == c)
    ensures d !in ReplaceAll(s, c, rep)
    decreases |s|
  {
    if |s| > 0 {
      ReplaceAllAvoids(s[1..], c, rep, d);
    }
  }

  /** Replacing a byte that does not occur changes nothing. */
  lemma {:induction false} ReplaceAllAbsent(s: Str, c: byte, rep: Str)
    requires c !in s
    ensures ReplaceAll(s, c, rep) == s
    decreases |s|
  {
    if |s| > 0 {
      ReplaceAllAbsent(s[1..], c, rep);
      assert [s[0]] + s[1..] == s;
    }
  }

  /** Joined pieces contain only bytes of the pieces and the separator. */
  lemma {:induction false} JoinBytes(ts: seq<Str>, sep: byte, d: byte)
    requires d != sep && forall i | 0 <= i < |ts| :: d !in ts[i]
    ensures d !in Join(ts, sep)
    decreases |ts|
  {
    if |ts| > 1 {
      JoinBytes(ts[1..], sep, d);
    }
  }

  /** Splitting at a separator splits the two sides independently. */
  lemma {:induction false} SplitConcat(a: Str, sep: byte, b: Str)
    ensures Split(a + [sep] + b, sep) == Split(a, sep) + Split(b, sep)
    decreases |a|
  {
    if |a| == 0 {
      assert a + [sep] + b == [sep] + b;
      assert ([sep] + b)[1..] == b;
    } else {
      assert (a + [sep] + b)[0] == a[0];
      assert (a + [sep] + b)[1..] == a[1..] + [sep] + b;
      SplitConcat(a[1..], sep, b);
    }
  }

  /** A byte absent from a string is absent from each of its pieces. */
  lemma {:induction false} SplitPiecesAvoid(s: Str, sep: byte, d: byte)
    requires d !in s
    ensures forall i | 0 <= i < |Split(s, sep)| :: d !in Split(s, sep)[i]
    decreases |s|
  {
    if |s| > 0 {
      SplitPiecesAvoid(s[1..], sep, d);
    }
  }
}
