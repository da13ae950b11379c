/**
 The embedding benchmark's bounds on untrusted JSON: a worklist over an explicit stack, against
 the recursive statement of what it bounds.
 */
module JsonBounds {
  import opened Order

  const MAX_DEPTH: nat := 64
  const MAX_ITEMS: nat := 10_000
  const MAX_TEXT: nat := 0x10_0000
  const MAX_NODES: nat := 100_000
  const MAX_INT: int := 0x7fff_ffff_ffff_ffff
  const MIN_INT: int := -0x8000_0000_0000_0000
  const MAX_FLOAT: real := 1000000000000000000.0

  /** A Python value; a number that is not finite has no value, and a key may be no string. */
  datatype Value =
    | Null
    | Bool(flag: bool)
    | Int(number: int)
    | Float(finite: Option<real>)
    | Text(text: string)
    | List(items: seq<Value>)
    | Dict(keys: seq<Option<string>>, values: seq<Value>)
    | Other

  function Children(v: Value): seq<Value> {
    match v
    case List(items) => items
    case Dict(_, values) => values
    case _ => []
  }

  /** The bounds on one node, whatever its place. */
  predicate NodeOk(v: Value) {
    match v
    case Text(text) => |text| <= MAX_TEXT
    case Int(number) => MIN_INT <= number <= MAX_INT
    case Float(finite) => finite.Some? && -MAX_FLOAT <= finite.value <= MAX_FLOAT
    case List(items) => |items| <= MAX_ITEMS
    case Dict(keys, values) =>
      && |values| <= MAX_ITEMS
      && forall i | 0 <= i < |keys| :: keys[i].Some? && |keys[i].value| <= MAX_TEXT
    case Other => false
    case _ => true
  }

  // ---- the recursive specification ------------------------------------------------

  function Nodes(v: Value): nat
    decreases v, |Children(v)| + 1
  {
    1 + NodesAll(v, |Children(v)|)
  }

  /** Nodes below `v`, in its first `n` children. */
  function NodesAll(v: Value, n: nat): nat
    requires n <= |Children(v)|
    decreases v, n
  {
    if n == 0 then 0 else NodesAll(v, n - 1) + Nodes(Children(v)[n - 1])
  }

  predicate Within(v: Value, depth: nat) {
    depth <= MAX_DEPTH && NodeOk(v) && forall i | 0 <= i < |Children(v)| :: Within(Children(v)[i], depth + 1)
  }

  predicate Bounded(v: Value) {
    Within(v, 0) && Nodes(v) <= MAX_NODES
  }

  // ---- the worklist ---------------------------------------------------------------

  datatype Pending = Pending(item: Value, depth: nat)

  ghost function NodesIn(pending: seq<Pending>): nat {
    if pending == [] then 0 else NodesIn(pending[..|pending| - 1]) + Nodes(pending[|pending| - 1].item)
  }

  ghost predicate WithinAll(pending: seq<Pending>) {
    forall i | 0 <= i < |pending| :: Within(pending[i].item, pending[i].depth)
  }

  function Below(v: Value, depth: nat, n: nat): seq<Pending>
    requires n <= |Children(v)|
  {
    seq(n, i requires 0 <= i < n => Pending(Children(v)[i], depth + 1))
  }

  lemma {:induction false} PushNodes(rest: seq<Pending>, v: Value, depth: nat, n: nat)
    requires n <= |Children(v)|
    ensures NodesIn(rest + Below(v, depth, n)) == NodesIn(rest) + NodesAll(v, n)
    decreases n
  {
    hide Nodes, Children;
    var all := rest + Below(v, depth, n);
    if n == 0 {
      assert all == rest;
    } else {
      PushNodes(rest, v, depth, n - 1);
      assert all[..|all| - 1] == rest + Below(v, depth, n - 1);
      assert all[|all| - 1].item == Children(v)[n - 1];
    }
  }

  lemma {:induction false} PushWithin(rest: seq<Pending>, v: Value, depth: nat)
    requires depth <= MAX_DEPTH && NodeOk(v)
    ensures WithinAll(rest + Below(v, depth, |Children(v)|)) <==> WithinAll(rest + [Pending(v, depth)])
  {
    hide NodeOk;
    var kids := Below(v, depth, |Children(v)|);
    assert WithinAll(rest + [Pending(v, depth)]) <==> WithinAll(rest) && Within(v, depth) by {
      WithinConcat(rest, [Pending(v, depth)]);
      assert [Pending(v, depth)][0].item == v;
    }
    WithinConcat(rest, kids);
    assert WithinAll(kids) <==> Within(v, depth) by {
      if WithinAll(kids) {
        forall i | 0 <= i < |Children(v)| ensures Within(Children(v)[i], depth + 1) {
          assert Within(kids[i].item, kids[i].depth);
        }
      }
    }
  }

  lemma {:induction false} WithinConcat(a: seq<Pending>, b: seq<Pending>)
    ensures WithinAll(a + b) <==> WithinAll(a) && WithinAll(b)
  {
    hide Within;
    if WithinAll(a + b) {
      forall i | 0 <= i < |a| ensures Within(a[i].item, a[i].depth) {
        assert (a + b)[i] == a[i];
      }
      forall i | 0 <= i < |b| ensures Within(b[i].item, b[i].depth) {
        assert (a + b)[|a| + i] == b[i];
      }
    }
  }

  /** `_validate_bounded_json_value` terminates and accepts exactly the bounded values. */
  method Validate(v: Value) returns (ok: bool)
    ensures ok <==> Bounded(v)
  {
    hide NodeOk, Within, Nodes;
    var pending := [Pending(v, 0)];
    var nodes := 0;
    StartPending(v);
    while pending != []
      invariant nodes <= MAX_NODES
      invariant Bounded(v) <==> WithinAll(pending) && nodes + NodesIn(pending) <= MAX_NODES
      decreases NodesIn(pending)
    {
      var n := |pending| - 1;
      var item, depth := pending[n].item, pending[n].depth;
      ghost var before := pending;
      pending := pending[..n];
      nodes := nodes + 1;
      PopPending(before);
      if nodes > MAX_NODES || depth > MAX_DEPTH {
        return false;
      }
      if !NodeOk(item) {
        return false;
      }
      PushWithin(pending, item, depth);
      PushNodes(pending, item, depth, |Children(item)|);
      pending := pending + Below(item, depth, |Children(item)|);
    }
    ok := true;
  }

  lemma {:induction false} StartPending(v: Value)
    ensures NodesIn([Pending(v, 0)]) == Nodes(v)
    ensures WithinAll([Pending(v, 0)]) <==> Within(v, 0)
  {
    hide Nodes, Within;
    assert [Pending(v, 0)][..0] == [];
    assert [Pending(v, 0)][0].item == v;
  }

  lemma {:induction false} PopPending(pending: seq<Pending>)
    requires pending != []
    ensures var n := |pending| - 1;
      var (item, depth) := (pending[n].item, pending[n].depth);
      && pending == pending[..n] + [Pending(item, depth)]
      && NodesIn(pending) == NodesIn(pending[..n]) + 1 + NodesAll(item, |Children(item)|)
      && (WithinAll(pending) ==> depth <= MAX_DEPTH && NodeOk(item))
  {
    hide NodeOk, Nodes, NodesAll, Children, Within;
    var n := |pending| - 1;
    NodesUnfold(pending[n].item);
    WithinUnfold(pending[n].item, pending[n].depth);
  }

  lemma {:induction false} NodesUnfold(v: Value)
    ensures Nodes(v) == 1 + NodesAll(v, |Children(v)|)
  {
    hide NodesAll, Children;
  }

  lemma {:induction false} WithinUnfold(v: Value, depth: nat)
    ensures Within(v, depth) ==> depth <= MAX_DEPTH && NodeOk(v)
  {
    hide NodeOk;
  }
}
