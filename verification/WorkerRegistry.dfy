/**
 The eager-start worker registry: providers by namespace and task queue, and an index from worker keys
 to them. Worker keys come from a slot map, which never hands out the same key twice.
 */
module WorkerRegistry {
  import opened Common

  type WorkerKey = nat

  datatype SlotKey = SlotKey(namespace: string, taskQueue: string)

  /** A slot provider; `id` tells providers of one queue apart, `slot` is what it reserves if asked. */
  datatype Provider = Provider(key: SlotKey, id: nat, slot: Option<nat>)

  datatype Registry = Registry(
    providers: map<SlotKey, Provider>,
    index: map<WorkerKey, SlotKey>,
    next: WorkerKey)

  const EMPTY := Registry(map[], map[], 0)

  function Register(r: Registry, p: Provider): (Registry, Option<WorkerKey>) {
    if p.key in r.providers then (r, None)
    else (Registry(r.providers[p.key := p], r.index[r.next := p.key], r.next + 1), Some(r.next))
  }

  function Unregister(r: Registry, k: WorkerKey): (Registry, Option<Provider>) {
    if k !in r.index then (r, None)
    else
      (r.(index := r.index - {k}, providers := r.providers - {r.index[k]}),
       if r.index[k] in r.providers then Some(r.providers[r.index[k]]) else None)
  }

  function TryReserve(r: Registry, key: SlotKey): Option<nat> {
    if key in r.providers then r.providers[key].slot else None
  }

  /** Index and providers are a bijection, and every provider sits under its own key. */
  ghost predicate Bijection(r: Registry) {
    && (forall k :: k in r.index ==> k < r.next && r.index[k] in r.providers)
    && (forall j, k :: j in r.index && k in r.index && r.index[j] == r.index[k] ==> j == k)
    && (forall key :: key in r.providers ==> exists k :: k in r.index && r.index[k] == key)
    && (forall key :: key in r.providers ==> r.providers[key].key == key)
  }

  class SlotManagerImpl {
    var providers: map<SlotKey, Provider>
    var index: map<WorkerKey, SlotKey>
    var next: WorkerKey

    ghost function Value(): Registry
      reads this
    {
      Registry(providers, index, next)
    }

    constructor ()
      ensures Value() == EMPTY && Bijection(Value())
    {
      providers, index, next := map[], map[], 0;
    }

    method TryReserveWftSlot(namespace: string, taskQueue: string) returns (slot: Option<nat>)
      ensures slot == TryReserve(Value(), SlotKey(namespace, taskQueue))
    {
      var key := SlotKey(namespace, taskQueue);
      if key in providers && providers[key].slot.Some? { return providers[key].slot; }
      slot := None;
    }

    method RegisterProvider(p: Provider) returns (k: Option<WorkerKey>)
      requires Bijection(Value())
      modifies this
      ensures Bijection(Value()) && (Value(), k) == Register(old(Value()), p)
    {
      ghost var r := Value();
      RegisterKeepsBijection(r, p);
      if p.key !in providers {
        providers := providers[p.key := p];
        k := Some(next);
        index, next := index[next := p.key], next + 1;
      } else {
        k := None;
      }
      assert Value() == Register(r, p).0;
    }

    method UnregisterWorker(k: WorkerKey) returns (p: Option<Provider>)
      requires Bijection(Value())
      modifies this
      ensures Bijection(Value()) && (Value(), p) == Unregister(old(Value()), k)
    {
      UnregisterKeepsBijection(Value(), k);
      if k in index {
        var key := index[k];
        index := index - {k};
        p := if key in providers then Some(providers[key]) else None;
        providers := providers - {key};
      } else {
        p := None;
      }
    }
  }

  lemma RegisterKeepsBijection(r: Registry, p: Provider)
    requires Bijection(r)
    ensures Bijection(Register(r, p).0)
  {
    var r' := Register(r, p).0;
    forall key | key in r'.providers ensures exists k :: k in r'.index && r'.index[k] == key {
      if key in r.providers {
        var k :| k in r.index && r.index[k] == key;
        assert k in r'.index && r'.index[k] == key;
      } else {
        assert r.next in r'.index && r'.index[r.next] == key;
      }
    }
  }

  lemma UnregisterKeepsBijection(r: Registry, k: WorkerKey)
    requires Bijection(r)
    ensures Bijection(Unregister(r, k).0)
  {
    var r' := Unregister(r, k).0;
    forall key | key in r'.providers ensures exists j :: j in r'.index && r'.index[j] == key {
      var j :| j in r.index && r.index[j] == key;
      assert j in r'.index && r'.index[j] == key;
    }
  }

  // ----- Runs -----

  datatype Op = Add(p: Provider) | Remove(k: WorkerKey)

  function Apply(r: Registry, op: Op): Registry {
    match op
    case Add(p) => Register(r, p).0
    case Remove(k) => Unregister(r, k).0
  }

  function Run(r: Registry, ops: seq<Op>): Registry {
    if ops == [] then r else Apply(Run(r, ops[..|ops| - 1]), ops[|ops| - 1])
  }

  lemma {:induction false} RunKeepsBijection(r: Registry, ops: seq<Op>)
    requires Bijection(r)
    ensures Bijection(Run(r, ops)) && r.next <= Run(r, ops).next
  {
    if ops != [] {
      var front := Run(r, ops[..|ops| - 1]);
      RunKeepsBijection(r, ops[..|ops| - 1]);
      match ops[|ops| - 1] {
        case Add(p) => RegisterKeepsBijection(front, p);
        case Remove(k) => UnregisterKeepsBijection(front, k);
      }
    }
  }

  /** After any operations the index values are exactly the provider keys, without repeats. */
  lemma IndexIsABijection(ops: seq<Op>)
    ensures var r := Run(EMPTY, ops);
            && r.index.Values == r.providers.Keys && |r.index| == |r.providers|
            && forall key :: key in r.providers ==> r.providers[key].key == key
  {
    RunKeepsBijection(EMPTY, ops);
    var r := Run(EMPTY, ops);
    forall key ensures key in r.index.Values <==> key in r.providers.Keys {
      if key in r.providers {
        var k :| k in r.index && r.index[k] == key;
      }
    }
    SameSize(r.index, r.providers.Keys);
  }

  lemma {:induction false} SameSize(index: map<WorkerKey, SlotKey>, keys: set<SlotKey>)
    requires index.Values == keys
    requires forall j, k :: j in index && k in index && index[j] == index[k] ==> j == k
    ensures |index| == |keys|
    decreases keys
  {
    if index == map[] {
      assert keys == {};
    } else {
      var k :| k in index;
      var rest := index - {k};
      assert rest.Keys == index.Keys - {k};
      forall key ensures key in rest.Values <==> key in keys - {index[k]} {
        if key in keys - {index[k]} {
          var j :| j in index && index[j] == key;
          assert j in rest && rest[j] == key;
        }
      }
      SameSize(rest, keys - {index[k]});
    }
  }

  /** Which provider a worker key stands for, if any. */
  function Holds(r: Registry, k: WorkerKey): Option<Provider> {
    if k in r.index && r.index[k] in r.providers then Some(r.providers[r.index[k]]) else None
  }

  ghost predicate StandsFor(r: Registry, k: WorkerKey, p: Provider) {
    k < r.next && (Holds(r, k) == Some(p) || k !in r.index)
  }

  lemma StandsForStep(r: Registry, k: WorkerKey, p: Provider, op: Op)
    requires Bijection(r) && StandsFor(r, k, p)
    ensures StandsFor(Apply(r, op), k, p)
  {
    if op.Remove? && op.k in r.index && op.k != k && k in r.index { assert r.index[op.k] != r.index[k]; }
  }

  /**
   A worker key stands for the provider it was given for, or for nothing: whatever happens after the
   registration, unregistering the key returns that very provider or leaves the registry alone. A stale
   key never removes a later registration of the same queue.
   */
  lemma KeyStandsForItsProvider(r: Registry, p: Provider, ops: seq<Op>)
    requires Bijection(r) && Register(r, p).1.Some?
    ensures var k := Register(r, p).1.value;
            var later := Run(Register(r, p).0, ops);
            Unregister(later, k).1 == Some(p) || Unregister(later, k) == (later, None)
  {
    RegisterKeepsBijection(r, p);
    StandsForRun(Register(r, p).0, r.next, p, ops);
  }

  lemma {:induction false} StandsForRun(r: Registry, k: WorkerKey, p: Provider, ops: seq<Op>)
    requires Bijection(r) && StandsFor(r, k, p)
    ensures StandsFor(Run(r, ops), k, p)
  {
    if ops != [] {
      var front := ops[..|ops| - 1];
      StandsForRun(r, k, p, front);
      RunKeepsBijection(r, front);
      StandsForStep(Run(r, front), k, p, ops[|ops| - 1]);
    }
  }

  /** Once unregistered, a key is dead for good. */
  lemma {:induction false} StaleKeysStayStale(r: Registry, k: WorkerKey, ops: seq<Op>)
    requires Bijection(r) && k < r.next && k !in r.index
    ensures Unregister(Run(r, ops), k) == (Run(r, ops), None)
  {
    if ops != [] {
      StaleKeysStayStale(r, k, ops[..|ops| - 1]);
      RunKeepsBijection(r, ops[..|ops| - 1]);
    }
  }

  /** Registering and unregistering undo each other, up to the key counter. */
  lemma UnregisterUndoesRegister(r: Registry, p: Provider)
    requires Bijection(r) && p.key !in r.providers
    ensures var (r', k) := Register(r, p);
            k.Some? && Unregister(r', k.value) == (r.(next := r'.next), Some(p))
  {
    var r' := Register(r, p).0;
    assert r'.index - {r.next} == r.index;
    assert r'.providers - {p.key} == r.providers;
  }

  /**
   Unregistering a key that holds a provider removes exactly that: the provider comes back, its queue has
   no worker any more, and every other key and queue is served as before.
   */
  lemma UnregisterRemovesExactly(r: Registry, k: WorkerKey, p: Provider)
    requires Bijection(r) && Holds(r, k) == Some(p)
    ensures var (later, removed) := Unregister(r, k);
            && removed == Some(p) && k !in later.index && TryReserve(later, p.key) == None
            && (forall j :: j != k ==> Holds(later, j) == Holds(r, j))
            && (forall key :: key != p.key ==> TryReserve(later, key) == TryReserve(r, key))
  {
    forall j | j != k && j in r.index ensures r.index[j] != r.index[k] {}
  }

  /** Registering for a free queue takes a new key, and serves every other key and queue as before. */
  lemma RegisterAddsExactly(r: Registry, p: Provider)
    requires Bijection(r) && p.key !in r.providers
    ensures var (later, k) := Register(r, p);
            && k.Some? && k.value !in r.index && Holds(later, k.value) == Some(p)
            && TryReserve(later, p.key) == p.slot
            && (forall j :: j != k.value ==> Holds(later, j) == Holds(r, j))
            && (forall key :: key != p.key ==> TryReserve(later, key) == TryReserve(r, key))
  {
  }

  lemma HoldsStep(r: Registry, k: WorkerKey, p: Provider, op: Op)
    requires Bijection(r) && k < r.next && Holds(r, k) == Some(p) && op != Remove(k)
    ensures k < Apply(r, op).next && Holds(Apply(r, op), k) == Some(p)
  {
    if op.Remove? && op.k in r.index { assert r.index[op.k] != r.index[k]; }
  }

  lemma {:induction false} HoldsRun(r: Registry, k: WorkerKey, p: Provider, ops: seq<Op>)
    requires Bijection(r) && k < r.next && Holds(r, k) == Some(p) && Remove(k) !in ops
    ensures k < Run(r, ops).next && Holds(Run(r, ops), k) == Some(p)
  {
    if ops != [] {
      var front := ops[..|ops| - 1];
      HoldsRun(r, k, p, front);
      RunKeepsBijection(r, front);
      HoldsStep(Run(r, front), k, p, ops[|ops| - 1]);
    }
  }

  /**
   The first registration of a queue wins until its key `k` is unregistered: whatever else is registered
   or unregistered meanwhile, every other registration of the queue is refused and every reservation for
   it goes to the first provider.
   */
  lemma FirstRegistrationWins(r: Registry, p: Provider, q: Provider, k: WorkerKey, ops: seq<Op>)
    requires Bijection(r) && q.key == p.key
    requires k in Register(r, p).0.index && Register(r, p).0.index[k] == p.key && Remove(k) !in ops
    ensures var later := Run(Register(r, p).0, ops);
            && Register(later, q) == (later, None)
            && TryReserve(later, p.key) == if p.key in r.providers then TryReserve(r, p.key) else p.slot
  {
    var taken := Register(r, p).0;
    RegisterKeepsBijection(r, p);
    HoldsRun(taken, k, taken.providers[p.key], ops);
    RunKeepsBijection(taken, ops);
  }
}
