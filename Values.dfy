/** url.Values: a query's keys, each with its list of values, and its text form. */
module UrlValues {
  import opened Wrappers
  import opened Text
  import opened Sorting
  import opened Escape

  type Values = map<Str, seq<Str>>

  /** Values.Add: appends x to the values of k. */
  function Add(v: Values, k: Str, x: Str): Values
  {
    v[k := (if k in v then v[k] else []) + [x]]
  }

  /** Values.Set: x becomes the only value of k. */
  function Set(v: Values, k: Str, x: Str): Values
  {
    v[k := [x]]
  }

  /** Every key carries at least one value (Encode writes nothing for a key without one). */
  predicate NoEmptyLists(v: Values)
  {
    forall k | k in v :: |v[k]| > 0
  }

  /** One "key=value" pair of an encoded query. */
  function Token(k: Str, x: Str): Str
  {
    QueryEscape(k) + "=" + QueryEscape(x)
  }

  function KeyTokens(k: Str, xs: seq<Str>): (r: seq<Str>)
    ensures |r| == |xs|
  {
    if |xs| == 0 then [] else [Token(k, xs[0])] + KeyTokens(k, xs[1..])
  }

  function TokensOf(ks: seq<Str>, v: Values): seq<Str>
    requires forall i | 0 <= i < |ks| :: ks[i] in v
  {
    if |ks| == 0 then [] else KeyTokens(ks[0], v[ks[0]]) + TokensOf(ks[1..], v)
  }

  /** The pairs Encode writes, in its order: keys sorted, each key's values in list order. */
  function EncodeTokens(v: Values): seq<Str>
  {
    TokensOf(SortedKeys(v.Keys), v)
  }

  /** Values.Encode: the pairs joined with '&'. */
  function Encode(v: Values): Str
  {
    Join(EncodeTokens(v), '&')
  }

  /** strings.Cut: the bytes before the first sep and those after it ("" when sep is absent). */
  function Cut(t: Str, sep: byte): (Str, Str)
  {
    if |t| == 0 then ([], [])
    else if t[0] == sep then ([], t[1..])
    else var (a, b) := Cut(t[1..], sep); ([t[0]] + a, b)
  }

  function FirstError(err: Option<Error>, e: Error): Option<Error>
  {
    if err.Some? then err else Some(e)
  }

  /** One '&'-separated piece of url.ParseQuery's loop: a piece with ';' is skipped and sets
      the semicolon error, replacing any earlier error; an empty piece is skipped; any other is
      cut at its first '=' and both halves unescaped, and a piece that fails to unescape is
      skipped, its error kept only when no error has been recorded yet. */
  function ParsePiece(t: Str, m: Values, err: Option<Error>): (Values, Option<Error>)
  {
    if ';' in t then (m, Some(SemicolonError))
    else if |t| == 0 then (m, err)
    else
      var (k, x) := Cut(t, '=');
      match QueryUnescape(k)
      case Failure(e) => (m, FirstError(err, e))
      case Success(key) =>
        match QueryUnescape(x)
        case Failure(e) => (m, FirstError(err, e))
        case Success(value) => (Add(m, key, value), err)
  }

  /** The loop of url.ParseQuery over the pieces, in order. */
  function ParseTokens(ts: seq<Str>, m: Values, err: Option<Error>): (Values, Option<Error>)
    decreases |ts|
  {
    if |ts| == 0 then (m, err)
    else
      var (m', err') := ParsePiece(ts[0], m, err);
      ParseTokens(ts[1..], m', err')
  }

  /** url.ParseQuery; a query with any bad piece fails, with the error the loop last kept:
      the last semicolon error if there is one, otherwise the first unescape error. */
  function ParseQuery(q: Str): Result<Values, Error>
  {
    var (m, err) := ParseTokens(Split(q, '&'), map[], None);
    if err.Some? then Failure(err.value) else Success(m)
  }

  // ----- Properties of Encode -----

  lemma TokenShape(k: Str, x: Str)
    ensures forall i | 0 <= i < |Token(k, x)| :: EscapedByte(Token(k, x)[i]) || Token(k, x)[i] == '='
    ensures '&' !in Token(k, x) && ';' !in Token(k, x) && Token(k, x) != []
  {
  }

  lemma {:induction false} TokensOfShape(ks: seq<Str>, v: Values)
    requires forall i | 0 <= i < |ks| :: ks[i] in v
    ensures forall i | 0 <= i < |TokensOf(ks, v)| ::
      TokensOf(ks, v)[i] != [] && '&' !in TokensOf(ks, v)[i] && ',' !in TokensOf(ks, v)[i] && ':' !in TokensOf(ks, v)[i]
    decreases |ks|
  {
    if |ks| > 0 {
      TokensOfShape(ks[1..], v);
      var kt := KeyTokens(ks[0], v[ks[0]]);
      forall i | 0 <= i < |kt| ensures kt[i] != [] && '&' !in kt[i] && ',' !in kt[i] && ':' !in kt[i] {
        KeyTokenAt(ks[0], v[ks[0]], i);
        TokenShape(ks[0], v[ks[0]][i]);
      }
    }
  }

  lemma {:induction false} KeyTokenAt(k: Str, xs: seq<Str>, i: nat)
    requires i < |xs|
    ensures KeyTokens(k, xs)[i] == Token(k, xs[i])
    decreases |xs|
  {
    if i > 0 {
      KeyTokenAt(k, xs[1..], i - 1);
    }
  }

  /** Every pair of an encoded query is non-empty and free of '&', ',' and ':'. */
  lemma EncodeTokensShape(v: Values)
    ensures forall i | 0 <= i < |EncodeTokens(v)| ::
      EncodeTokens(v)[i] != [] && '&' !in EncodeTokens(v)[i] && ',' !in EncodeTokens(v)[i] && ':' !in EncodeTokens(v)[i]
  {
    TokensOfShape(SortedKeys(v.Keys), v);
  }

  /** An encoded query holds no raw ',' or ':'. */
  lemma EncodeHasNoCommaOrColon(v: Values)
    ensures ',' !in Encode(v) && ':' !in Encode(v)
  {
    EncodeTokensShape(v);
    JoinBytes(EncodeTokens(v), '&', ',');
    JoinBytes(EncodeTokens(v), '&', ':');
  }

  // ----- ParseQuery undoes Encode -----

  lemma {:induction false} ParseTokensAppend(a: seq<Str>, b: seq<Str>, m: Values, err: Option<Error>)
    ensures ParseTokens(a + b, m, err) ==
      ParseTokens(b, ParseTokens(a, m, err).0, ParseTokens(a, m, err).1)
    decreases |a|
  {
    if |a| > 0 {
      assert (a + b)[0] == a[0] && (a + b)[1..] == a[1..] + b;
      var (m', err') := ParsePiece(a[0], m, err);
      ParseTokensAppend(a[1..], b, m', err');
    } else {
      assert a + b == b;
    }
  }

  lemma {:induction false} CutAtFirst(a: Str, sep: byte, b: Str)
    requires sep !in a
    ensures Cut(a + [sep] + b, sep) == (a, b)
    decreases |a|
  {
    if |a| == 0 {
      assert (a + [sep] + b)[1..] == b;
    } else {
      assert (a + [sep] + b)[1..] == a[1..] + [sep] + b;
      CutAtFirst(a[1..], sep, b);
      assert [a[0]] + a[1..] == a;
    }
  }

  /** Parsing one encoded pair adds its value to its key. */
  lemma ParseToken(k: Str, x: Str, rest: seq<Str>, m: Values, err: Option<Error>)
    ensures ParseTokens([Token(k, x)] + rest, m, err) == ParseTokens(rest, Add(m, k, x), err)
  {
    var t := Token(k, x);
    TokenShape(k, x);
    CutAtFirst(QueryEscape(k), '=', QueryEscape(x));
    EscapeRoundTrip(k);
    EscapeRoundTrip(x);
    assert ParsePiece(t, m, err) == (Add(m, k, x), err);
    assert ([t] + rest)[0] == t && ([t] + rest)[1..] == rest;
  }

  /** m with the values xs appended to those of k. */
  function Extend(m: Values, k: Str, xs: seq<Str>): Values
  {
    if |xs| == 0 then m else m[k := (if k in m then m[k] else []) + xs]
  }

  lemma ExtendStep(m: Values, k: Str, xs: seq<Str>)
    requires |xs| > 0
    ensures Extend(Add(m, k, xs[0]), k, xs[1..]) == Extend(m, k, xs)
  {
    var prior := if k in m then m[k] else [];
    if |xs| == 1 {
      assert xs == [xs[0]];
    } else {
      assert prior + [xs[0]] + xs[1..] == prior + xs;
    }
  }

  /** Parsing the pairs of one key appends all its values, in order. */
  lemma {:induction false} ParseKeyTokens(k: Str, xs: seq<Str>, rest: seq<Str>, m: Values, err: Option<Error>)
    ensures ParseTokens(KeyTokens(k, xs) + rest, m, err) == ParseTokens(rest, Extend(m, k, xs), err)
    decreases |xs|
  {
    if |xs| > 0 {
      var tail := KeyTokens(k, xs[1..]) + rest;
      assert KeyTokens(k, xs) + rest == [Token(k, xs[0])] + tail;
      ParseToken(k, xs[0], tail, m, err);
      ParseKeyTokens(k, xs[1..], rest, Add(m, k, xs[0]), err);
      ExtendStep(m, k, xs);
    } else {
      assert KeyTokens(k, xs) + rest == rest;
    }
  }

  /** The entries of v whose keys are listed in ks. */
  function Restrict(v: Values, ks: seq<Str>): Values
  {
    map k | k in ks && k in v :: v[k]
  }

  lemma {:induction false} ParseTokensOf(ks: seq<Str>, v: Values, m: Values, err: Option<Error>)
    requires forall i | 0 <= i < |ks| :: ks[i] in v && |v[ks[i]]| > 0 && ks[i] !in m
    requires forall i, j | 0 <= i < j < |ks| :: ks[i] != ks[j]
    ensures ParseTokens(TokensOf(ks, v), m, err) == (m + Restrict(v, ks), err)
    decreases |ks|
  {
    if |ks| == 0 {
      assert Restrict(v, ks) == map[];
      assert m + Restrict(v, ks) == m;
    } else {
      var k, tail := ks[0], ks[1..];
      var rest := TokensOf(tail, v);
      assert TokensOf(ks, v) == KeyTokens(k, v[k]) + rest;
      ParseKeyTokens(k, v[k], rest, m, err);
      var m' := m[k := v[k]];
      assert k !in m && |v[k]| > 0 && [] + v[k] == v[k];
      assert Extend(m, k, v[k]) == m';
      assert ParseTokens(TokensOf(ks, v), m, err) == ParseTokens(rest, m', err);
      assert forall i | 0 <= i < |tail| :: tail[i] in v && |v[tail[i]]| > 0 && tail[i] !in m' by {
        forall i | 0 <= i < |tail| ensures tail[i] !in m' { assert tail[i] == ks[i + 1] != ks[0]; }
      }
      assert forall i, j | 0 <= i < j < |tail| :: tail[i] != tail[j] by {
        forall i, j | 0 <= i < j < |tail| ensures tail[i] != tail[j] { assert tail[i] == ks[i + 1] && tail[j] == ks[j + 1]; }
      }
      ParseTokensOf(tail, v, m', err);
      RestrictCons(v, ks, m);
    }
  }

  lemma RestrictCons(v: Values, ks: seq<Str>, m: Values)
    requires |ks| > 0 && ks[0] in v
    ensures m[ks[0] := v[ks[0]]] + Restrict(v, ks[1..]) == m + Restrict(v, ks)
  {
    var l := m[ks[0] := v[ks[0]]] + Restrict(v, ks[1..]);
    var r := m + Restrict(v, ks);
    forall k ensures (k in l <==> k in r) && (k in l ==> l[k] == r[k]) {
      if k in ks[1..] {
        assert k in ks;
      }
      if k in ks && k != ks[0] {
        assert k in ks[1..] by {
          var i :| 0 <= i < |ks| && ks[i] == k;
          assert ks[1..][i - 1] == k;
        }
      }
    }
    assert l == r;
  }

  /** ParseQuery gives back exactly the values that were encoded. */
  lemma ParseEncodeRoundTrip(v: Values)
    requires NoEmptyLists(v)
    ensures ParseQuery(Encode(v)) == Success(v)
  {
    if v == map[] {
      ParseEmpty();
    } else {
      var ks := SortedKeys(v.Keys);
      var ts := EncodeTokens(v);
      EncodeTokensNonEmpty(v);
      EncodeTokensShape(v);
      SplitJoin(ts, '&');
      assert Split(Encode(v), '&') == ts;
      ParseTokensOf(ks, v, map[], None);
      RestrictAll(v);
      assert ParseTokens(ts, map[], None) == (v, None);
    }
  }

  /** A query whose last piece holds a ';' fails with the semicolon error, whatever the pieces
      before it hold: that error replaces any error recorded earlier, an escape error included. */
  lemma SemicolonErrorWins(q: Str, last: Str)
    requires '&' !in last && ';' in last
    ensures ParseQuery(q + ['&'] + last) == Failure(SemicolonError)
  {
    SplitConcat(q, '&', last);
    SplitNoSeparator(last, '&');
    var before := ParseTokens(Split(q, '&'), map[], None);
    ParseTokensAppend(Split(q, '&'), [last], map[], None);
    assert ParseTokens([last], before.0, before.1) == (before.0, Some(SemicolonError));
  }

  lemma ParseEmpty()
    ensures ParseQuery(Encode(map[])) == Success(map[])
  {
    var e: Values := map[];
    assert SortedKeys(e.Keys) == [];
    assert EncodeTokens(e) == [];
    assert Encode(e) == [];
    assert Split(Encode(e), '&') == [[]];
  }

  lemma RestrictAll(v: Values)
    ensures map[] + Restrict(v, SortedKeys(v.Keys)) == v
  {
    var ks := SortedKeys(v.Keys);
    var r := Restrict(v, ks);
    assert forall k :: k in r <==> k in v;
    assert forall k | k in r :: r[k] == v[k];
    assert r == v;
    assert map[] + r == r;
  }

  /** A non-empty set of values with a value for every key encodes to at least one pair. */
  lemma EncodeTokensNonEmpty(v: Values)
    requires NoEmptyLists(v) && |v| > 0
    ensures |EncodeTokens(v)| > 0
  {
    var ks := SortedKeys(v.Keys);
    var k :| k in v;
    assert k in ks;
    assert |KeyTokens(ks[0], v[ks[0]])| > 0;
  }

  /** Every key carries exactly one value, as in the parameters of every signed request. */
  predicate OneValueEach(v: Values)
  {
    forall k | k in v :: |v[k]| == 1
  }

  /** A pair determines its key and its value. */
  lemma TokenInjective(k1: Str, x1: Str, k2: Str, x2: Str)
    requires Token(k1, x1) == Token(k2, x2)
    ensures k1 == k2 && x1 == x2
  {
    EscapedHasNoReserved(k1);
    EscapedHasNoReserved(k2);
    CutAtFirst(QueryEscape(k1), '=', QueryEscape(x1));
    CutAtFirst(QueryEscape(k2), '=', QueryEscape(x2));
    EscapeRoundTrip(k1);
    EscapeRoundTrip(x1);
    EscapeRoundTrip(k2);
    EscapeRoundTrip(x2);
  }

  /** With one value per key, the i-th pair is the pair of the i-th key. */
  lemma {:induction false} TokensOfOne(ks: seq<Str>, v: Values)
    requires OneValueEach(v) && forall i | 0 <= i < |ks| :: ks[i] in v
    ensures |TokensOf(ks, v)| == |ks|
    ensures forall i | 0 <= i < |ks| :: TokensOf(ks, v)[i] == Token(ks[i], v[ks[i]][0])
    decreases |ks|
  {
    if |ks| > 0 {
      TokensOfOne(ks[1..], v);
      KeyTokenAt(ks[0], v[ks[0]], 0);
    }
  }

  /** With one value per key, Encode writes the pair of every key. */
  lemma EncodedPair(v: Values, k: Str)
    requires OneValueEach(v) && k in v
    ensures Token(k, v[k][0]) in EncodeTokens(v)
  {
    var ks := SortedKeys(v.Keys);
    TokensOfOne(ks, v);
    var i :| 0 <= i < |ks| && ks[i] == k;
    assert EncodeTokens(v)[i] == Token(k, v[k][0]);
  }

  /** With one value per key, each pair Encode writes is the pair of some key. */
  lemma EncodedPairKey(v: Values, t: Str) returns (k: Str)
    requires OneValueEach(v) && t in EncodeTokens(v)
    ensures k in v && t == Token(k, v[k][0])
  {
    var ks := SortedKeys(v.Keys);
    var ts := EncodeTokens(v);
    TokensOfOne(ks, v);
    var i :| 0 <= i < |ts| && ts[i] == t;
    k := ks[i];
  }

  /** Every key of v1 is a key of v2 with the same value, when every pair v1 encodes is one
      that v2 encodes. */
  lemma Covered(v1: Values, v2: Values)
    requires OneValueEach(v1) && OneValueEach(v2)
    requires multiset(EncodeTokens(v1)) <= multiset(EncodeTokens(v2))
    ensures forall k | k in v1 :: k in v2 && v2[k] == v1[k]
  {
    forall k | k in v1
      ensures k in v2 && v2[k] == v1[k]
    {
      var t := Token(k, v1[k][0]);
      EncodedPair(v1, k);
      assert t in multiset(EncodeTokens(v1));
      assert t in EncodeTokens(v2);
      var k2 := EncodedPairKey(v2, t);
      TokenInjective(k, v1[k][0], k2, v2[k2][0]);
      assert v1[k] == [v1[k][0]] && v2[k] == [v2[k][0]];
    }
  }

  /** With one value per key, the pairs Encode writes, taken in any order, determine the values. */
  lemma EncodeTokensDetermine(v1: Values, v2: Values)
    requires OneValueEach(v1) && OneValueEach(v2)
    requires multiset(EncodeTokens(v1)) == multiset(EncodeTokens(v2))
    ensures v1 == v2
  {
    Covered(v1, v2);
    Covered(v2, v1);
    assert forall k :: k in v1 <==> k in v2;
    assert forall k | k in v1 :: v1[k] == v2[k];
  }

  /** With one value per key, the pairs Encode writes are exactly the pairs of the keys. */
  lemma PairsOf(v: Values, t: Str)
    requires OneValueEach(v)
    ensures t in EncodeTokens(v) <==> exists k :: k in v && t == Token(k, v[k][0])
  {
    if t in EncodeTokens(v) {
      var k := EncodedPairKey(v, t);
    }
    if exists k :: k in v && t == Token(k, v[k][0]) {
      var k :| k in v && t == Token(k, v[k][0]);
      EncodedPair(v, k);
    }
  }

  /** Setting one key to one value or to another changes only that key's pair: every other pair
      is written in both encodings or in neither. */
  lemma SetOnlyDiffers(v: Values, k0: Str, x1: Str, x2: Str, t: Str)
    requires OneValueEach(v)
    ensures (t in EncodeTokens(v[k0 := [x1]]) && t != Token(k0, x1)) <==>
            (t in EncodeTokens(v[k0 := [x2]]) && t != Token(k0, x2))
  {
    var v1, v2 := v[k0 := [x1]], v[k0 := [x2]];
    PairsOf(v1, t);
    PairsOf(v2, t);
    if t in EncodeTokens(v1) && t != Token(k0, x1) {
      var k :| k in v1 && t == Token(k, v1[k][0]);
      assert k != k0;
      if t == Token(k0, x2) {
        TokenInjective(k, v1[k][0], k0, x2);
      }
      assert k in v2 && t == Token(k, v2[k][0]);
    }
    if t in EncodeTokens(v2) && t != Token(k0, x2) {
      var k :| k in v2 && t == Token(k, v2[k][0]);
      assert k != k0;
      if t == Token(k0, x1) {
        TokenInjective(k, v2[k][0], k0, x1);
      }
      assert k in v1 && t == Token(k, v1[k][0]);
    }
  }
}
