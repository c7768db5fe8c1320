/** src/transaction/transaction_manager.cpp: identifiers and the states they move through. */
module Transactions {
  import opened Results

  datatype TransactionState = Active | Committed | RolledBack

  datatype Manager = Manager(nextId: nat, states: map<nat, TransactionState>)

  const NO_TRANSACTIONS := Manager(1, map[])

  /** Identifiers handed out are below the counter, so a new one is never in use. */
  predicate ValidManager(m: Manager) {
    forall id :: id in m.states ==> id < m.nextId
  }

  predicate IsActive(m: Manager, id: nat) {
    id in m.states && m.states[id] == Active
  }

  function BeginIn(m: Manager): (r: (Manager, nat))
    ensures ValidManager(m) ==> ValidManager(r.0) && IsActive(r.0, r.1) && r.1 !in m.states
    ensures forall id :: id in m.states ==> id in r.0.states && r.0.states[id] == m.states[id]
  {
    var id := m.nextId;
    (Manager(id + 1, if id in m.states then m.states else m.states[id := Active]), id)
  }

  /** Only an active transaction can finish, and it finishes once. */
  function FinishIn(m: Manager, id: nat, outcome: TransactionState): (r: Result<Manager>)
    ensures r.Ok? <==> IsActive(m, id)
    ensures r.Ok? && ValidManager(m) ==> ValidManager(r.value)
    ensures r.Ok? && outcome != Active ==> !IsActive(r.value, id)
  {
    if id in m.states && m.states[id] == Active then Ok(m.(states := m.states[id := outcome])) else Err
  }

  class TransactionManager {
    var nextId: nat
    var states: map<nat, TransactionState>

    ghost predicate Valid()
      reads this
    {
      ValidManager(View())
    }

    function View(): Manager
      reads this
    {
      Manager(nextId, states)
    }

    constructor ()
      ensures Valid() && View() == NO_TRANSACTIONS
    {
      nextId := 1;
      states := map[];
    }

    method Begin() returns (id: nat)
      requires Valid()
      modifies this
      ensures Valid() && (View(), id) == BeginIn(old(View()))
    {
      id := nextId;
      nextId := nextId + 1;
      if id !in states {
        states := states[id := Active];
      }
    }

    method Finish(id: nat, outcome: TransactionState) returns (r: Result<()>)
      requires Valid()
      modifies this
      ensures Valid() && (r.Ok? <==> IsActive(old(View()), id))
      ensures View() == if r.Ok? then FinishIn(old(View()), id, outcome).value else old(View())
    {
      if id !in states || states[id] != Active {
        return Err;
      }
      states := states[id := outcome];
      return Ok(());
    }
  }
}
