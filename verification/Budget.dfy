/** `PackageBudgetMeter`: reservations against a finite budget, each settled at most once. */
module Budget {
  import opened Order

  datatype Usage = Usage(tokens: nat, providerCalls: nat, costMicrounits: nat, elapsedMs: nat)

  const Nothing: Usage := Usage(0, 0, 0, 0)

  function Plus(a: Usage, b: Usage): Usage {
    Usage(a.tokens + b.tokens, a.providerCalls + b.providerCalls, a.costMicrounits + b.costMicrounits,
          a.elapsedMs + b.elapsedMs)
  }

  predicate AtMost(a: Usage, b: Usage) {
    && a.tokens <= b.tokens && a.providerCalls <= b.providerCalls
    && a.costMicrounits <= b.costMicrounits && a.elapsedMs <= b.elapsedMs
  }

  function Minus(a: Usage, b: Usage): Usage
    requires AtMost(b, a)
  {
    Usage(a.tokens - b.tokens, a.providerCalls - b.providerCalls, a.costMicrounits - b.costMicrounits,
          a.elapsedMs - b.elapsedMs)
  }

  datatype Reservation = Reservation(maximum: Usage, active: bool, charged: Option<Usage>)

  /** The meter's books: a reservation is its index in `issued`. */
  datatype Ledger = Ledger(budget: Usage, initial: Usage, usage: Usage, reserved: Usage, issued: seq<Reservation>)

  function Outstanding(issued: seq<Reservation>): Usage {
    if issued == [] then Nothing
    else
      var last := issued[|issued| - 1];
      var before := Outstanding(issued[..|issued| - 1]);
      if last.active then Plus(before, last.maximum) else before
  }

  function Charged(issued: seq<Reservation>): Usage {
    if issued == [] then Nothing
    else
      var last := issued[|issued| - 1];
      var before := Charged(issued[..|issued| - 1]);
      if last.charged.Some? then Plus(before, last.charged.value) else before
  }

  /** Open reservations are held back exactly, charges are counted exactly, within the budget. */
  ghost predicate Balanced(l: Ledger) {
    && l.reserved == Outstanding(l.issued) && l.usage == Plus(l.initial, Charged(l.issued))
    && AtMost(Plus(l.usage, l.reserved), l.budget)
    && forall i | 0 <= i < |l.issued| ::
         (l.issued[i].active ==> l.issued[i].charged.None?) &&
         (l.issued[i].charged.Some? ==> AtMost(l.issued[i].charged.value, l.issued[i].maximum))
  }

  predicate CanReserve(l: Ledger, maximum: Usage) {
    AtMost(Plus(Plus(l.usage, l.reserved), maximum), l.budget)
  }

  function Reserve(l: Ledger, maximum: Usage): Ledger {
    l.(reserved := Plus(l.reserved, maximum), issued := l.issued + [Reservation(maximum, true, None)])
  }

  predicate IsActive(l: Ledger, i: nat) {
    i < |l.issued| && l.issued[i].active
  }

  function Commit(l: Ledger, i: nat, actual: Usage): Ledger
    requires IsActive(l, i) && AtMost(l.issued[i].maximum, l.reserved)
  {
    l.(reserved := Minus(l.reserved, l.issued[i].maximum), usage := Plus(l.usage, actual),
       issued := l.issued[i := l.issued[i].(active := false, charged := Some(actual))])
  }

  function Cancel(l: Ledger, i: nat): Ledger
    requires IsActive(l, i) && AtMost(l.issued[i].maximum, l.reserved)
  {
    l.(reserved := Minus(l.reserved, l.issued[i].maximum), issued := l.issued[i := l.issued[i].(active := false)])
  }

  lemma OutstandingSnoc(issued: seq<Reservation>, r: Reservation)
    ensures Outstanding(issued + [r]) == if r.active then Plus(Outstanding(issued), r.maximum) else Outstanding(issued)
    ensures Charged(issued + [r]) == if r.charged.Some? then Plus(Charged(issued), r.charged.value) else Charged(issued)
  {
    assert (issued + [r])[..|issued|] == issued;
  }

  /** Closing reservation `i` takes exactly its maximum out of what is outstanding. */
  lemma {:induction false} OutstandingClose(issued: seq<Reservation>, i: nat, charged: Option<Usage>)
    requires i < |issued| && issued[i].active && issued[i].charged.None?
    ensures AtMost(issued[i].maximum, Outstanding(issued))
    ensures var closed := issued[i := issued[i].(active := false, charged := charged)];
      && Outstanding(closed) == Minus(Outstanding(issued), issued[i].maximum)
      && Charged(closed) == if charged.Some? then Plus(Charged(issued), charged.value) else Charged(issued)
  {
    var n := |issued| - 1;
    var closed := issued[i := issued[i].(active := false, charged := charged)];
    if i < n {
      OutstandingClose(issued[..n], i, charged);
      assert closed[..n] == issued[..n][i := closed[i]];
    } else {
      assert closed[..n] == issued[..n];
    }
  }

  lemma ReserveBalanced(l: Ledger, maximum: Usage)
    requires Balanced(l) && CanReserve(l, maximum)
    ensures Balanced(Reserve(l, maximum))
  {
    OutstandingSnoc(l.issued, Reservation(maximum, true, None));
  }

  lemma SettleBalanced(l: Ledger, i: nat, actual: Usage)
    requires Balanced(l) && IsActive(l, i) && AtMost(actual, l.issued[i].maximum)
    ensures AtMost(l.issued[i].maximum, l.reserved)
    ensures Balanced(Commit(l, i, actual)) && Balanced(Cancel(l, i))
  {
    OutstandingClose(l.issued, i, Some(actual));
    OutstandingClose(l.issued, i, None);
    assert l.issued[i].(active := false, charged := None) == l.issued[i].(active := false);
  }

  class PackageBudgetMeter {
    const budget: Usage
    ghost const initial: Usage
    var usage: Usage
    var reserved: Usage
    var issued: seq<Reservation>

    ghost function Books(): Ledger
      reads this
    {
      Ledger(budget, initial, usage, reserved, issued)
    }

    ghost predicate Valid()
      reads this
    {
      Balanced(Books())
    }

    constructor (budget: Usage, initial: Usage)
      requires AtMost(initial, budget)
      ensures Valid() && Books() == Ledger(budget, initial, initial, Nothing, [])
    {
      this.budget, this.initial, usage, reserved, issued := budget, initial, initial, Nothing, [];
    }

    method Hold(maximum: Usage) returns (r: Option<nat>)
      requires Valid()
      modifies this
      ensures Valid()
      ensures r.Some? <==> CanReserve(old(Books()), maximum)
      ensures r.Some? ==> r.value == |old(issued)| && Books() == Reserve(old(Books()), maximum)
      ensures r.None? ==> Books() == old(Books())
    {
      var proposed := Plus(Plus(usage, reserved), maximum);
      if !AtMost(proposed, budget) {
        return None;
      }
      ReserveBalanced(Books(), maximum);
      r := Some(|issued|);
      reserved := Plus(reserved, maximum);
      issued := issued + [Reservation(maximum, true, None)];
    }

    method Charge(i: nat, actual: Usage) returns (ok: bool)
      requires Valid()
      modifies this
      ensures Valid()
      ensures ok <==> IsActive(old(Books()), i) && AtMost(actual, old(issued)[i].maximum)
      ensures ok ==> AtMost(old(issued)[i].maximum, old(reserved)) && Books() == Commit(old(Books()), i, actual)
      ensures !ok ==> Books() == old(Books())
    {
      if i >= |issued| || !AtMost(actual, issued[i].maximum) || !issued[i].active {
        return false;
      }
      SettleBalanced(Books(), i, actual);
      reserved := Minus(reserved, issued[i].maximum);
      usage := Plus(usage, actual);
      issued := issued[i := issued[i].(active := false, charged := Some(actual))];
      ok := true;
    }

    method Drop(i: nat) returns (ok: bool)
      requires Valid()
      modifies this
      ensures Valid()
      ensures ok <==> IsActive(old(Books()), i)
      ensures ok ==> AtMost(old(issued)[i].maximum, old(reserved)) && Books() == Cancel(old(Books()), i)
      ensures !ok ==> Books() == old(Books())
    {
      if i >= |issued| || !issued[i].active {
        return false;
      }
      SettleBalanced(Books(), i, Nothing);
      reserved := Minus(reserved, issued[i].maximum);
      issued := issued[i := issued[i].(active := false)];
      ok := true;
    }
  }
}
