/** `HttpRequest::initQueryParam`: the PARSE_PARAM loop over a query string. */
module QueryParams {
  import opened ByteBlocks
  import opened UrlCodec

  type Text = seq<byte>
  type Pair = (Text, Text)

  /** `std::string::find`, with the length for npos. */
  function Find(s: Text, c: byte, from: nat): (r: nat)
    requires from <= |s|
    ensures from <= r <= |s| && (r < |s| ==> s[r] == c) && (forall i :: from <= i < r ==> s[i] != c)
    decreases |s| - from
  {
    if from == |s| || s[from] == c then from else Find(s, c, from + 1)
  }

  /** The pairs a query string holds, decoded. */
  function Pairs(s: Text): seq<Pair> {
    var e := Find(s, EQUALS, 0);
    if e == |s| then []
    else
      var p := Find(s, AMP, e);
      var pair := (Decode(s[..e], true), Decode(s[e + 1..p], true));
      if p == |s| then [pair] else [pair] + Pairs(s[p + 1..])
  }

  /** What `strcasecmp` sees of a key: lower case, up to the first NUL. */
  function Folded(k: Text): Text {
    if k == [] || k[0] == 0 then [] else [if 65 <= k[0] <= 90 then k[0] + 32 else k[0]] + Folded(k[1..])
  }

  type Params = map<Text, Pair>

  /** `std::map::insert`: an equivalent key that is already there stays. */
  function Insert(m: Params, p: Pair): Params { if Folded(p.0) in m then m else m[Folded(p.0) := p] }

  function InsertAll(m: Params, ps: seq<Pair>): Params
    decreases |ps|
  {
    if ps == [] then m else InsertAll(Insert(m, ps[0]), ps[1..])
  }

  lemma {:induction false} FindShift(s: Text, c: byte, from: nat, pos: nat)
    requires pos <= from <= |s|
    ensures Find(s, c, from) == pos + Find(s[pos..], c, from - pos)
    decreases |s| - from
  {
    if from < |s| && s[from] != c { FindShift(s, c, from + 1, pos); }
  }

  lemma {:induction false} PairsUnfold(s: Text)
    ensures var e := Find(s, EQUALS, 0);
      if e == |s| then Pairs(s) == []
      else
        var p := Find(s, AMP, e);
        var pair := (Decode(s[..e], true), Decode(s[e + 1..p], true));
        e < p && Pairs(s) == if p == |s| then [pair] else [pair] + Pairs(s[p + 1..])
  {
    hide Decode, Find;
  }

  lemma PairsAt(str: Text, last: nat)
    requires last <= |str|
    ensures var e := Find(str, EQUALS, last);
      && (e == |str| ==> Pairs(str[last..]) == [])
      && (e < |str| ==>
            var p := Find(str, AMP, e);
            var pair := (Decode(str[last..e], true), Decode(str[e + 1..p], true));
            e < p && Pairs(str[last..]) == if p == |str| then [pair] else [pair] + Pairs(str[p + 1..]))
  {
    hide Decode, Pairs, Find;
    var s := str[last..];
    PairsUnfold(s);
    FindShift(str, EQUALS, last, last);
    var e := Find(str, EQUALS, last);
    if e < |str| {
      FindShift(str, AMP, e, last);
      var p := Find(str, AMP, e);
      assert s[..e - last] == str[last..e] && s[e - last + 1..p - last] == str[e + 1..p];
      if p < |str| { assert s[p - last + 1..] == str[p + 1..]; }
    }
  }

  method InitQueryParam(str: Text) returns (m: Params)
    ensures m == InsertAll(map[], Pairs(str))
  {
    hide Decode, Folded, Insert, Pairs, Find;
    m := map[];
    var pos := 0;
    assert str[0..] == str;
    while true
      invariant 0 <= pos <= |str| && InsertAll(m, Pairs(str[pos..])) == InsertAll(map[], Pairs(str))
      decreases |str| - pos
    {
      var last := pos;
      PairsAt(str, last);
      pos := Find(str, EQUALS, pos);
      if pos == |str| { break; }
      var key := pos;
      pos := Find(str, AMP, pos);
      var k := UrlDecode(str[last..key], true);
      var v := UrlDecode(str[key + 1..pos], true);
      ghost var rest := if pos == |str| then [] else Pairs(str[pos + 1..]);
      assert Pairs(str[last..]) == [(k, v)] + rest;
      InsertStep(m, (k, v), rest);
      m := Insert(m, (k, v));
      if pos == |str| { break; }
      pos := pos + 1;
    }
  }

  lemma InsertStep(m: Params, p: Pair, rest: seq<Pair>)
    ensures InsertAll(m, [p] + rest) == InsertAll(Insert(m, p), rest)
  {
    assert ([p] + rest)[1..] == rest;
  }

  // ---------- which pair stays ----------

  /** The first pair whose key is `k` for strcasecmp, or the length. */
  function FirstWith(ps: seq<Pair>, k: Text): (r: nat)
    ensures r <= |ps| && (r < |ps| ==> Folded(ps[r].0) == k)
    ensures forall i :: 0 <= i < r ==> Folded(ps[i].0) != k
  {
    if ps == [] || Folded(ps[0].0) == k then 0
    else
      var r := FirstWith(ps[1..], k);
      assert forall i :: 1 <= i <= r ==> ps[i] == ps[1..][i - 1];
      1 + r
  }

  /** A key is in the map exactly when some pair has it, and then with the first such pair. */
  lemma {:induction false} FirstPairStays(m: Params, ps: seq<Pair>, k: Text)
    ensures var r, i := InsertAll(m, ps), FirstWith(ps, k);
      if k in m then k in r && r[k] == m[k]
      else if i < |ps| then k in r && r[k] == ps[i]
      else k !in r
    decreases |ps|
  {
    hide Folded;
    if ps != [] { FirstPairStays(Insert(m, ps[0]), ps[1..], k); }
  }

  // ---------- what is recovered ----------

  function One(p: Pair, plus: bool): Text { Encode(p.0, plus) + [EQUALS] + Encode(p.1, plus) }

  /** Pairs written as a query string. */
  function Query(ps: seq<Pair>, plus: bool): Text {
    if ps == [] then [] else if |ps| == 1 then One(ps[0], plus) else One(ps[0], plus) + [AMP] + Query(ps[1..], plus)
  }

  lemma {:induction false} EncodedChars(s: Text, plus: bool)
    ensures AMP !in Encode(s, plus) && (EQUALS in Encode(s, plus) ==> EQUALS in s)
  {
    if s != [] {
      EncodedChars(s[1..], plus);
      EncodedByteChars(s[0], plus);
      assert s == [s[0]] + s[1..];
    }
  }

  lemma EncodedByteChars(c: byte, plus: bool)
    ensures AMP !in EncodeByte(c, plus) && (EQUALS in EncodeByte(c, plus) ==> c == EQUALS)
  {
  }

  lemma {:induction false} FindAfter(a: Text, c: byte, b: Text, from: nat)
    requires from <= |a| && (forall i :: from <= i < |a| ==> a[i] != c) && (b != [] ==> b[0] == c)
    ensures Find(a + b, c, from) == |a|
    decreases |a| - from
  {
    if from < |a| { FindAfter(a, c, b, from + 1); }
  }

  lemma OneIs(p: Pair, plus: bool)
    ensures One(p, plus) == Encode(p.0, plus) + [EQUALS] + Encode(p.1, plus)
  {
  }

  lemma Slices(k: Text, v: Text, tail: Text)
    ensures var s := k + [EQUALS] + v + tail; var q := |k| + 1 + |v|;
      && s == k + ([EQUALS] + v + tail) && |s| == q + |tail| && s[..|k|] == k && s[|k| + 1..q] == v
      && (tail != [] ==> s[q + 1..] == tail[1..])
  {
  }

  lemma FirstPair(p: Pair, plus: bool, tail: Text)
    requires EQUALS !in p.0 && (tail != [] ==> tail[0] == AMP)
    ensures Pairs(One(p, plus) + tail) == if tail == [] then [p] else [p] + Pairs(tail[1..])
  {
    hide Encode, Decode, Pairs, Find, One;
    var k, v := Encode(p.0, plus), Encode(p.1, plus);
    EncodedChars(p.0, plus);
    EncodedChars(p.1, plus);
    var s := One(p, plus) + tail;
    Slices(k, v, tail);
    assert One(p, plus) == k + [EQUALS] + v by { OneIs(p, plus); }
    PairsUnfold(s);
    FindAfter(k, EQUALS, [EQUALS] + v + tail, 0);
    FindAfter(k + [EQUALS] + v, AMP, tail, |k|);
    var e := |k|;
    var q := |k| + 1 + |v|;
    DecodeEncode(p.0, plus, true);
    DecodeEncode(p.1, plus, true);
  }

  /** A key that holds `=` comes back cut there: its encoding keeps the sign, and the parser splits at it. */
  lemma CutKey(p: Pair, plus: bool, tail: Text)
    requires EQUALS in p.0
    ensures var k := Find(p.0, EQUALS, 0); var ps := Pairs(One(p, plus) + tail);
      k < |p.0| && ps != [] && ps[0].0 == p.0[..k] && ps[0].0 != p.0
  {
    hide Encode, Decode, Pairs, Find, One;
    FindIn(p.0, EQUALS);
    OneIs(p, plus);
    var k := Find(p.0, EQUALS, 0);
    var a, b := p.0[..k], p.0[k + 1..];
    assert p.0 == a + ([EQUALS] + b);
    EncodeConcat(a, [EQUALS] + b, plus);
    EncodeConcat([EQUALS], b, plus);
    assert Encode([EQUALS], plus) == [EQUALS] by { EncodeEquals(plus); }
    EncodedChars(a, plus);
    var s := One(p, plus) + tail;
    var ea := Encode(a, plus);
    var rest := [EQUALS] + Encode(b, plus) + [EQUALS] + Encode(p.1, plus) + tail;
    assert s == ea + rest;
    FindAfter(ea, EQUALS, rest, 0);
    PairsUnfold(s);
    assert s[..|ea|] == ea;
    DecodeEncode(a, plus, true);
  }

  lemma FindIn(s: Text, c: byte)
    requires c in s
    ensures Find(s, c, 0) < |s|
  {
  }

  lemma EncodeEquals(plus: bool)
    ensures Encode([EQUALS], plus) == [EQUALS]
  {
    var one := [EQUALS];
    assert one[1..] == [];
    assert Encode(one, plus) == EncodeByte(EQUALS, plus) + Encode(one[1..], plus);
  }

  lemma QueryFirst(ps: seq<Pair>, plus: bool)
    requires ps != []
    ensures Query(ps, plus) == One(ps[0], plus) + (if |ps| == 1 then [] else [AMP] + Query(ps[1..], plus))
  {
    hide One;
    if |ps| == 1 { assert One(ps[0], plus) + [] == One(ps[0], plus); }
    else {
      assert One(ps[0], plus) + [AMP] + Query(ps[1..], plus) == One(ps[0], plus) + ([AMP] + Query(ps[1..], plus));
    }
  }

  /** The converse: if some key holds `=`, the pairs do not come back. */
  lemma {:induction false} PairsNeedCleanKeys(ps: seq<Pair>, plus: bool, i: nat)
    requires i < |ps| && EQUALS in ps[i].0
    ensures Pairs(Query(ps, plus)) != ps
    decreases |ps|
  {
    hide One, Pairs, Query;
    QueryFirst(ps, plus);
    var tail := if |ps| == 1 then [] else [AMP] + Query(ps[1..], plus);
    if EQUALS in ps[0].0 {
      CutKey(ps[0], plus, tail);
    } else {
      FirstPair(ps[0], plus, tail);
      PairsNeedCleanKeys(ps[1..], plus, i - 1);
      assert tail[1..] == Query(ps[1..], plus);
      assert ps == [ps[0]] + ps[1..];
      assert Pairs(Query(ps, plus))[1..] == Pairs(Query(ps[1..], plus));
    }
  }

  /** Whatever the space mode of the encoder: parsing the written pairs gives them back exactly when no key holds `=`.
      */
  lemma PairsComeBackExactlyWhen(ps: seq<Pair>, plus: bool)
    ensures Pairs(Query(ps, plus)) == ps <==> forall i :: 0 <= i < |ps| ==> EQUALS !in ps[i].0
  {
    hide Pairs, Query;
    if i :| 0 <= i < |ps| && EQUALS in ps[i].0 {
      PairsNeedCleanKeys(ps, plus, i);
    } else {
      PairsOfQuery(ps, plus);
    }
  }

  /** The key `=` with the value empty comes back as the empty key. */
  lemma EqualsKeyIsCut(plus: bool)
    ensures Pairs(Query([([EQUALS], [])], plus)) != [] && Pairs(Query([([EQUALS], [])], plus))[0].0 == []
  {
    hide Pairs, Query;
    var p: Pair := ([EQUALS], []);
    QueryFirst([p], plus);
    CutKey(p, plus, []);
  }

  /** Whatever the space mode of the encoder: parsing the written pairs gives them back, if no key holds `=`. */
  lemma {:induction false} PairsOfQuery(ps: seq<Pair>, plus: bool)
    requires forall i :: 0 <= i < |ps| ==> EQUALS !in ps[i].0
    ensures Pairs(Query(ps, plus)) == ps
  {
    hide One, Pairs;
    if ps == [] {
      PairsUnfold([]);
    } else if |ps| == 1 {
      FirstPair(ps[0], plus, []);
      assert One(ps[0], plus) + [] == One(ps[0], plus);
    } else {
      var rest := Query(ps[1..], plus);
      PairsOfQuery(ps[1..], plus);
      FirstPair(ps[0], plus, [AMP] + rest);
      assert ([AMP] + rest)[1..] == rest;
      assert One(ps[0], plus) + ([AMP] + rest) == Query(ps, plus);
      assert ps == [ps[0]] + ps[1..];
    }
  }

  /** Keys that differ for strcasecmp. */
  predicate DistinctKeys(ps: seq<Pair>) { forall i, j :: 0 <= i < j < |ps| ==> Folded(ps[i].0) != Folded(ps[j].0) }

  lemma {:induction false} InsertAllKeys(m: Params, ps: seq<Pair>, f: Text)
    ensures f in InsertAll(m, ps) <==> f in m || exists i :: 0 <= i < |ps| && Folded(ps[i].0) == f
    ensures f in m ==> InsertAll(m, ps)[f] == m[f]
    decreases |ps|
  {
    hide Folded;
    if ps != [] {
      InsertAllKeys(Insert(m, ps[0]), ps[1..], f);
      assert forall i :: 1 <= i < |ps| ==> ps[i] == ps[1..][i - 1];
    }
  }

  lemma {:induction false} InsertAllValue(m: Params, ps: seq<Pair>, i: nat)
    requires i < |ps| && DistinctKeys(ps) && Folded(ps[i].0) !in m
    ensures Folded(ps[i].0) in InsertAll(m, ps) && InsertAll(m, ps)[Folded(ps[i].0)] == ps[i]
    decreases |ps|
  {
    hide Folded;
    if i == 0 {
      InsertAllKeys(Insert(m, ps[0]), ps[1..], Folded(ps[0].0));
    } else {
      assert forall k :: 1 <= k < |ps| ==> ps[k] == ps[1..][k - 1];
      InsertAllValue(Insert(m, ps[0]), ps[1..], i - 1);
    }
  }

  /** The written pairs are recovered exactly: every key finds its own pair and there is nothing else. */
  lemma QueryRecovers(ps: seq<Pair>, plus: bool)
    requires (forall i :: 0 <= i < |ps| ==> EQUALS !in ps[i].0) && DistinctKeys(ps)
    ensures var m := InsertAll(map[], Pairs(Query(ps, plus)));
      && (forall i :: 0 <= i < |ps| ==> Folded(ps[i].0) in m && m[Folded(ps[i].0)] == ps[i])
      && (forall f :: f in m <==> exists i :: 0 <= i < |ps| && Folded(ps[i].0) == f)
  {
    hide Folded, Pairs, Query, InsertAll;
    PairsOfQuery(ps, plus);
    var m := InsertAll(map[], ps);
    forall i | 0 <= i < |ps| ensures Folded(ps[i].0) in m && m[Folded(ps[i].0)] == ps[i] {
      InsertAllValue(map[], ps, i);
    }
    forall f ensures f in InsertAll(map[], ps) <==> exists i :: 0 <= i < |ps| && Folded(ps[i].0) == f {
      InsertAllKeys(map[], ps, f);
    }
  }
}
