/**
 The external embedding provider: inputs go out in batches, and every response lists its vectors
 with an index, in any order.
 */
module Embeddings {
  import opened Order

  /** One JSON element of a vector: a finite number, or something unusable. */
  datatype Cell = Number(value: real) | Unusable
  type Raw = seq<Cell>
  type Vector = seq<real>

  /** One element of `data`; `None` fields had the wrong type, `Malformed` was no object. */
  datatype Item = Malformed | Item(index: Option<int>, vector: Option<Raw>)

  /** None: the transport raised, or the response had no list under `data`. */
  type Response = Option<seq<Item>>

  /** What the k-th request of a call is answered with. */
  type Transport = (nat, seq<string>) -> Response

  const MAX_ABS: real := 1000000000000000000000000000000.0

  /** Storing as float32; None is an overflow. */
  type Rounding = real -> Option<real>

  predicate InRange(x: real) {
    -MAX_ABS <= x <= MAX_ABS
  }

  predicate CellOk(round: Rounding, c: Cell) {
    c.Number? && InRange(c.value) && round(c.value).Some? && InRange(round(c.value).value)
  }

  /** One vector of `validate_embedding_batch`. */
  function Stored(raw: Raw, dimension: nat, round: Rounding): Option<Vector> {
    if |raw| != dimension || exists i | 0 <= i < |raw| :: !CellOk(round, raw[i]) then None
    else
      var v := seq(|raw|, i requires 0 <= i < |raw| && CellOk(round, raw[i]) => round(raw[i].value).value);
      if forall i | 0 <= i < |v| :: v[i] == 0.0 then None else Some(v)
  }

  /** All vectors, or nothing. */
  function StoredAll(raws: seq<Raw>, dimension: nat, round: Rounding): Option<seq<Vector>> {
    if raws == [] then Some([])
    else
      var before, last := StoredAll(raws[..|raws| - 1], dimension, round), Stored(raws[|raws| - 1], dimension, round);
      if before.None? || last.None? then None else Some(before.value + [last.value])
  }

  // ---- one batch ------------------------------------------------------------------

  predicate ItemOk(item: Item, n: nat) {
    item.Item? && item.index.Some? && 0 <= item.index.value < n && item.vector.Some?
  }

  /** As many items as inputs, each usable and in range, no index twice. */
  ghost predicate WellFormed(items: seq<Item>, n: nat) {
    && |items| == n
    && (forall i | 0 <= i < |items| :: ItemOk(items[i], n))
    && (forall i, j | 0 <= i < j < |items| :: items[i].index != items[j].index)
  }

  /** `ordered` holds exactly the vectors of the first `k` items, each in the slot it names. */
  ghost predicate Slots(ordered: seq<Option<Raw>>, items: seq<Item>, k: nat)
    requires k <= |items|
  {
    && (forall i | 0 <= i < k :: ItemOk(items[i], |ordered|) && ordered[items[i].index.value] == items[i].vector)
    && (forall s | 0 <= s < |ordered| && ordered[s].Some? :: exists i | 0 <= i < k :: items[i].index == Some(s))
    && (forall i, j | 0 <= i < j < k :: items[i].index != items[j].index)
  }

  ghost function IndexOf(item: Item): int {
    if item.Item? && item.index.Some? then item.index.value else -1
  }

  ghost function Indices(items: seq<Item>, k: nat): set<int>
    requires k <= |items|
  {
    set i | 0 <= i < k :: IndexOf(items[i])
  }

  lemma {:induction false} IndexCount(items: seq<Item>, k: nat)
    requires k <= |items| && forall i, j | 0 <= i < j < k :: IndexOf(items[i]) != IndexOf(items[j])
    ensures |Indices(items, k)| == k
  {
    if k > 0 {
      IndexCount(items, k - 1);
      assert Indices(items, k) == Indices(items, k - 1) + {IndexOf(items[k - 1])};
      assert IndexOf(items[k - 1]) !in Indices(items, k - 1);
    }
  }

  ghost function Below(n: nat): set<int> {
    if n == 0 then {} else Below(n - 1) + {n - 1}
  }

  lemma {:induction false} BelowExact(n: nat)
    ensures |Below(n)| == n && forall i: int :: i in Below(n) <==> 0 <= i < n
  {
    if n > 0 {
      BelowExact(n - 1);
    }
  }

  /** `n` distinct indices below `n` are all of them: no slot can stay empty. */
  lemma EverySlotFilled(ordered: seq<Option<Raw>>, items: seq<Item>)
    requires |items| == |ordered| && Slots(ordered, items, |items|)
    ensures forall s | 0 <= s < |ordered| :: ordered[s].Some?
  {
    var n := |items|;
    assert forall i | 0 <= i < n :: items[i].index == Some(IndexOf(items[i]));
    IndexCount(items, n);
    BelowExact(n);
    var all := Indices(items, n);
    assert all <= Below(n);
    SameSize(all, Below(n));
    forall s | 0 <= s < |ordered| ensures ordered[s].Some? {
      assert s in all;
      var i :| 0 <= i < n && IndexOf(items[i]) == s;
      assert ordered[items[i].index.value] == items[i].vector;
    }
  }

  lemma SameSize(a: set<int>, b: set<int>)
    requires a <= b && |a| == |b|
    ensures a == b
  {
    assert b == a + (b - a);
  }

  /** The vector that slot `s` must get. */
  ghost predicate IsVectorAt(items: seq<Item>, s: nat, raw: Raw) {
    exists i :: 0 <= i < |items| && items[i] == Item(Some(s), Some(raw))
  }

  ghost predicate IsOrdered(items: seq<Item>, raws: seq<Raw>) {
    |raws| == |items| && forall s | 0 <= s < |raws| :: IsVectorAt(items, s, raws[s])
  }

  ghost function VectorAt(items: seq<Item>, s: nat): Raw {
    if items == [] then []
    else
      var last := items[|items| - 1];
      if last.Item? && last.index == Some(s) && last.vector.Some? then last.vector.value
      else VectorAt(items[..|items| - 1], s)
  }

  ghost function Arranged(items: seq<Item>, n: nat): seq<Raw> {
    seq(n, s requires 0 <= s < n => VectorAt(items, s))
  }

  lemma {:induction false} VectorFound(items: seq<Item>, i: nat, n: nat)
    requires i < |items| && ItemOk(items[i], n)
    requires forall j | 0 <= j < |items| && j != i :: ItemOk(items[j], n) && items[j].index != items[i].index
    ensures VectorAt(items, items[i].index.value) == items[i].vector.value
  {
    var m := |items| - 1;
    if i < m {
      VectorFound(items[..m], i, n);
    }
  }

  lemma OrderedUnique(items: seq<Item>, raws: seq<Raw>)
    requires WellFormed(items, |items|) && IsOrdered(items, raws)
    ensures raws == Arranged(items, |items|)
  {
    forall s | 0 <= s < |raws| ensures raws[s] == VectorAt(items, s) {
      assert IsVectorAt(items, s, raws[s]);
      var i :| 0 <= i < |items| && items[i] == Item(Some(s), Some(raws[s]));
      VectorFound(items, i, |items|);
    }
  }

  /** Fill the slots in whatever order the response comes. */
  method FillSlots(items: seq<Item>, n: nat) returns (r: Option<seq<Raw>>)
    ensures r.Some? <==> WellFormed(items, n)
    ensures r.Some? ==> IsOrdered(items, r.value) && r.value == Arranged(items, n)
  {
    if |items| != n {
      return None;
    }
    var ordered := new Option<Raw>[n](_ => None);
    for k := 0 to n
      invariant Slots(ordered[..], items, k)
    {
      var item := items[k];
      if !ItemOk(item, n) {
        return None;
      }
      var s := item.index.value;
      if ordered[s].Some? {
        assert ordered[..][s].Some?;
        return None;
      }
      assert forall i | 0 <= i < k :: items[i].index != item.index by {
        forall i | 0 <= i < k ensures items[i].index != item.index {
          assert ordered[..][items[i].index.value] == items[i].vector;
        }
      }
      ghost var before := ordered[..];
      ordered[s] := item.vector;
      assert ordered[..] == before[s := item.vector];
      SlotsStep(before, items, k);
    }
    var filled := ordered[..];
    EverySlotFilled(filled, items);
    assert !exists i | 0 <= i < n :: filled[i].None?;
    r := Some(seq(n, i requires 0 <= i < n && filled[i].Some? => filled[i].value));
    FilledIsOrdered(filled, items, r.value);
    OrderedUnique(items, r.value);
  }

  lemma SlotsStep(before: seq<Option<Raw>>, items: seq<Item>, k: nat)
    requires k < |items| && Slots(before, items, k) && ItemOk(items[k], |before|)
    requires forall i | 0 <= i < k :: items[i].index != items[k].index
    ensures Slots(before[items[k].index.value := items[k].vector], items, k + 1)
  {
    var after := before[items[k].index.value := items[k].vector];
    forall s | 0 <= s < |after| && after[s].Some? ensures exists i | 0 <= i < k + 1 :: items[i].index == Some(s) {
      if s == items[k].index.value {
        assert items[k].index == Some(s);
      } else {
        var i :| 0 <= i < k && items[i].index == Some(s);
      }
    }
  }

  lemma FilledIsOrdered(ordered: seq<Option<Raw>>, items: seq<Item>, raws: seq<Raw>)
    requires |items| == |ordered| && Slots(ordered, items, |items|)
    requires |raws| == |ordered| && forall s | 0 <= s < |ordered| :: ordered[s] == Some(raws[s])
    ensures IsOrdered(items, raws)
  {
    forall s | 0 <= s < |raws| ensures IsVectorAt(items, s, raws[s]) {
      var i :| 0 <= i < |items| && items[i].index == Some(s);
      assert ItemOk(items[i], |ordered|) && ordered[items[i].index.value] == items[i].vector;
      assert items[i] == Item(Some(s), Some(raws[s]));
    }
  }

  // ---- the whole call -------------------------------------------------------------

  datatype Configuration = Configuration(batchSize: nat, dimension: nat, round: Rounding)

  ghost function BatchAnswer(c: Configuration, response: Response, n: nat): Option<seq<Vector>> {
    if response.None? || !WellFormed(response.value, n) then None
    else StoredAll(Arranged(response.value, n), c.dimension, c.round)
  }

  function Join(a: Option<seq<Vector>>, b: Option<seq<Vector>>): Option<seq<Vector>> {
    if a.None? || b.None? then None else Some(a.value + b.value)
  }

  function Front(c: Configuration, inputs: seq<string>): (n: nat)
    requires 1 <= c.batchSize
    ensures n <= |inputs| && (inputs != [] ==> 1 <= n)
  {
    if c.batchSize <= |inputs| then c.batchSize else |inputs|
  }

  ghost function EmbedAll(c: Configuration, transport: Transport, k: nat, inputs: seq<string>): Option<seq<Vector>>
    requires 1 <= c.batchSize
    decreases |inputs|
  {
    if inputs == [] then Some([])
    else
      var n := Front(c, inputs);
      Join(BatchAnswer(c, transport(k, inputs[..n]), n), EmbedAll(c, transport, k + 1, inputs[n..]))
  }

  method EmbedBatch(c: Configuration, response: Response, n: nat) returns (r: Option<seq<Vector>>)
    ensures r == BatchAnswer(c, response, n)
  {
    if response.None? {
      return None;
    }
    var raws := FillSlots(response.value, n);
    if raws.None? {
      return None;
    }
    r := StoredAll(raws.value, c.dimension, c.round);
  }

  predicate AcceptableInputs(inputs: seq<string>) {
    inputs != [] && forall i | 0 <= i < |inputs| :: inputs[i] != ""
  }

  method Embed(c: Configuration, transport: Transport, inputs: seq<string>) returns (r: Option<seq<Vector>>)
    requires 1 <= c.batchSize
    ensures r == if AcceptableInputs(inputs) then EmbedAll(c, transport, 0, inputs) else None
  {
    hide BatchAnswer;
    if !AcceptableInputs(inputs) {
      return None;
    }
    var vectors: seq<Vector> := [];
    var offset, k: nat := 0, 0;
    assert inputs[0..] == inputs;
    JoinEmpty(EmbedAll(c, transport, 0, inputs));
    while offset < |inputs|
      invariant offset <= |inputs|
      invariant EmbedAll(c, transport, 0, inputs) == Join(Some(vectors), EmbedAll(c, transport, k, inputs[offset..]))
    {
      var n := Front(c, inputs[offset..]);
      var batch := inputs[offset..][..n];
      ghost var rest := EmbedAll(c, transport, k + 1, inputs[offset..][n..]);
      var one := EmbedBatch(c, transport(k, batch), n);
      if one.None? {
        return None;
      }
      assert inputs[offset..][n..] == inputs[offset + n..];
      JoinMoves(vectors, one.value, rest);
      vectors := vectors + one.value;
      offset, k := offset + n, k + 1;
    }
    assert inputs[offset..] == [];
    assert vectors + [] == vectors;
    r := Some(vectors);
  }

  lemma JoinEmpty(x: Option<seq<Vector>>)
    ensures Join(Some([]), x) == x
  {
    if x.Some? {
      assert [] + x.value == x.value;
    }
  }

  lemma JoinMoves(a: seq<Vector>, b: seq<Vector>, rest: Option<seq<Vector>>)
    ensures Join(Some(a), Join(Some(b), rest)) == Join(Some(a + b), rest)
  {
    if rest.Some? {
      assert a + (b + rest.value) == (a + b) + rest.value;
    }
  }

  // ---- batching does not show -----------------------------------------------------

  /** The response lists the vector of every input under its index, in any order. */
  ghost predicate Lists(items: seq<Item>, batch: seq<string>, f: string -> Raw) {
    |items| == |batch| && forall s | 0 <= s < |batch| :: IsVectorAt(items, s, f(batch[s]))
  }

  ghost predicate Faithful(transport: Transport, f: string -> Raw) {
    forall k: nat, batch: seq<string> :: transport(k, batch).Some? && Lists(transport(k, batch).value, batch, f)
  }

  ghost function Where(items: seq<Item>, batch: seq<string>, f: string -> Raw, s: nat): (i: nat)
    requires Lists(items, batch, f) && s < |batch|
    ensures i < |items| && items[i] == Item(Some(s), Some(f(batch[s])))
  {
    assert IsVectorAt(items, s, f(batch[s]));
    var i :| 0 <= i < |items| && items[i] == Item(Some(s), Some(f(batch[s])));
    i
  }

  ghost function Places(items: seq<Item>, batch: seq<string>, f: string -> Raw, n: nat): set<int>
    requires Lists(items, batch, f) && n <= |batch|
  {
    if n == 0 then {} else Places(items, batch, f, n - 1) + {Where(items, batch, f, n - 1)}
  }

  lemma {:induction false} PlacesCount(items: seq<Item>, batch: seq<string>, f: string -> Raw, n: nat)
    requires Lists(items, batch, f) && n <= |batch|
    ensures |Places(items, batch, f, n)| == n
    ensures forall i | i in Places(items, batch, f, n) ::
              && 0 <= i < |items| && ItemOk(items[i], |items|) && items[i].index.value < n
              && Where(items, batch, f, items[i].index.value) == i
  {
    hide Lists;
    if n > 0 {
      PlacesCount(items, batch, f, n - 1);
      var w := Where(items, batch, f, n - 1);
      assert w !in Places(items, batch, f, n - 1);
      assert |items| == |batch| by {
        ListsLength(items, batch, f);
      }
    }
  }

  lemma ListsLength(items: seq<Item>, batch: seq<string>, f: string -> Raw)
    requires Lists(items, batch, f)
    ensures |items| == |batch|
  {
  }

  lemma AllPlaced(items: seq<Item>, batch: seq<string>, f: string -> Raw)
    requires Lists(items, batch, f)
    ensures forall i | 0 <= i < |items| ::
              && ItemOk(items[i], |items|) && items[i].index.value < |batch|
              && Where(items, batch, f, items[i].index.value) == i
  {
    var n := |batch|;
    PlacesCount(items, batch, f, n);
    BelowExact(n);
    var places := Places(items, batch, f, n);
    ListsLength(items, batch, f);
    hide Lists, Places;
    forall i | i in places ensures i in Below(n) {
    }
    SameSize(places, Below(n));
    assert forall i | 0 <= i < n :: i in places;
  }

  /** A response that covers every index in as many items names each index once. */
  lemma ListsWellFormed(items: seq<Item>, batch: seq<string>, f: string -> Raw)
    requires Lists(items, batch, f)
    ensures WellFormed(items, |batch|)
    ensures Arranged(items, |batch|) == seq(|batch|, s requires 0 <= s < |batch| => f(batch[s]))
  {
    AllPlaced(items, batch, f);
    forall i, j | 0 <= i < j < |items| ensures items[i].index != items[j].index {
      assert Where(items, batch, f, items[i].index.value) == i && Where(items, batch, f, items[j].index.value) == j;
    }
    OrderedUnique(items, seq(|batch|, s requires 0 <= s < |batch| => f(batch[s])));
  }

  function Apply(f: string -> Raw, inputs: seq<string>): seq<Raw> {
    seq(|inputs|, s requires 0 <= s < |inputs| => f(inputs[s]))
  }

  lemma {:induction false} StoredConcat(a: seq<Raw>, b: seq<Raw>, dimension: nat, round: Rounding)
    ensures StoredAll(a + b, dimension, round) == Join(StoredAll(a, dimension, round), StoredAll(b, dimension, round))
  {
    hide Stored;
    if b == [] {
      assert a + b == a;
      if StoredAll(a, dimension, round).Some? {
        assert StoredAll(a, dimension, round).value + [] == StoredAll(a, dimension, round).value;
      }
    } else {
      var n := |b| - 1;
      assert (a + b)[..|a + b| - 1] == a + b[..n];
      StoredConcat(a, b[..n], dimension, round);
      var x, y := StoredAll(a, dimension, round), StoredAll(b[..n], dimension, round);
      var last := Stored(b[n], dimension, round);
      if x.Some? && y.Some? && last.Some? {
        assert (x.value + y.value) + [last.value] == x.value + (y.value + [last.value]);
      }
    }
  }

  /** With a provider that embeds each input on its own, the result is every input's own vector in
      input order: the batch size, and the order of each response, never show. */
  lemma {:induction false} BatchingInvisible(c: Configuration, transport: Transport, f: string -> Raw, k: nat,
                                             inputs: seq<string>)
    requires 1 <= c.batchSize && Faithful(transport, f)
    ensures EmbedAll(c, transport, k, inputs) == StoredAll(Apply(f, inputs), c.dimension, c.round)
    decreases |inputs|
  {
    hide Lists, WellFormed, Arranged;
    if inputs != [] {
      var n := Front(c, inputs);
      var batch := inputs[..n];
      BatchingInvisible(c, transport, f, k + 1, inputs[n..]);
      ListsWellFormed(transport(k, batch).value, batch, f);
      assert Apply(f, inputs) == Apply(f, batch) + Apply(f, inputs[n..]);
      StoredConcat(Apply(f, batch), Apply(f, inputs[n..]), c.dimension, c.round);
    }
  }

  /** The result is all or nothing: it exists when every vector is acceptable, in place. */
  lemma {:induction false} StoredEach(raws: seq<Raw>, dimension: nat, round: Rounding)
    ensures var r := StoredAll(raws, dimension, round);
      && (r.Some? <==> forall i | 0 <= i < |raws| :: Stored(raws[i], dimension, round).Some?)
      && (r.Some? ==>
            && |r.value| == |raws|
            && forall i | 0 <= i < |raws| :: Stored(raws[i], dimension, round) == Some(r.value[i]))
  {
    hide Stored;
    if raws != [] {
      StoredEach(raws[..|raws| - 1], dimension, round);
    }
  }
}
