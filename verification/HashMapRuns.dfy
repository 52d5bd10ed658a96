/** Whole runs of operations on the maps of js/public/HashTable.h and js/public/GCHashTable.h. */
module HashMapRuns {
  import opened Options
  import opened TableModel
  import opened HashTables
  import opened HashMaps
  import opened GCHashMaps

  /** PrepareAdd keeps the pointer that lookupForAdd returns for a key; RelookupOrAdd uses the one kept for it. */
  datatype Op<!K(==), !V> =
    | Get(k: K)
    | Put(k: K, v: V)
    | PutNew(k: K, v: V)
    | GetOrAdd(k: K, default: V)
    | PrepareAdd(k: K)
    | RelookupOrAdd(k: K, v: V)
    | Remove(k: K)
    | Rekey(oldKey: K, newKey: K)
    | Sweep(dead: (K, V) -> bool, update: (K, V) -> V)
    | SweepAndRekey(policy: SweepPolicy<K, V>)
    | Clear

  datatype Answer<V> = Found(value: Option<V>) | Done(ok: bool)

  /** A plain finite map, and the keys for which a pointer is kept. */
  datatype Model<K(==), V> = Model(m: map<K, V>, prepared: set<K>)

  /** What the source asks of the caller of an operation, for the map as it stands. */
  ghost predicate Legal<K(!new), V(!new)>(s: Model<K, V>, op: Op<K, V>) {
    match op
    case PutNew(k, v) => k !in s.m
    case RelookupOrAdd(k, v) => k in s.prepared
    case Rekey(o, n) => o in s.m && n in s.m ==> n == o
    case SweepAndRekey(policy) => Sane(s.m, policy)
    case _ => true
  }

  /** Adding may be refused, but only a key that is not there, and only for lack of memory or at the maximum capacity. */
  ghost predicate Added<K, V>(m: map<K, V>, k: K, v: V, mem: Memory, ok: bool, m': map<K, V>) {
    && m' == (if ok then m[k := v] else m)
    && (!ok ==> k !in m && Scarce(|m|, mem))
  }

  /** What one operation does to a plain finite map. */
  ghost predicate MapStep<K(!new), V(!new)>(m: map<K, V>, op: Op<K, V>, mem: Memory, answer: Answer<V>, m': map<K, V>) {
    match op
    case Get(k) => answer == Found(if k in m then Some(m[k]) else None) && m' == m
    case Put(k, v) => answer.Done? && Added(m, k, v, mem, answer.ok, m')
    case PutNew(k, v) => answer.Done? && Added(m, k, v, mem, answer.ok, m') && (!mem.simOk ==> !answer.ok)
    case GetOrAdd(k, default) =>
      answer.Found? && if k in m then answer.value == Some(m[k]) && m' == m
                       else answer.value in {None, Some(default)} && Added(m, k, default, mem, answer.value.Some?, m')
    case PrepareAdd(k) => answer == Done(true) && m' == m
    case RelookupOrAdd(k, v) =>
      answer.Done? && if k in m then answer.ok && m' == m else Added(m, k, v, mem, answer.ok, m')
    case Remove(k) => answer == Done(true) && m' == m - {k}
    case Rekey(o, n) => answer == Done(o in m) && m' == if o in m then (m - {o})[n := m[o]] else m
    case Sweep(dead, update) => answer == Done(true) && m' == Survivors(m, dead, update)
    case SweepAndRekey(policy) => answer == Done(true) && Swept(m, policy, m')
    case Clear => answer == Done(true) && m' == map[]
  }

  function PreparedAfter<K, V>(prepared: set<K>, op: Op<K, V>): set<K> {
    if op.PrepareAdd? then prepared + {op.k} else prepared
  }

  ghost predicate ModelStep<K(!new), V(!new)>(s: Model<K, V>, op: Op<K, V>, mem: Memory, answer: Answer<V>, s': Model<K, V>) {
    MapStep(s.m, op, mem, answer, s'.m) && s'.prepared == PreparedAfter(s.prepared, op)
  }

  /** A client chooses each operation by the answers it has had. */
  type Client<!K(==), !V> = seq<Answer<V>> -> Op<K, V>

  /** The answers are those of a plain map put through the operations that the client chooses on them, ending as s'. */
  ghost predicate ModelRun<K(!new), V(!new)>(s: Model<K, V>, client: Client<K, V>, mems: seq<Memory>, answers: seq<Answer<V>>, s': Model<K, V>)
    decreases |mems|
  {
    && |answers| == |mems|
    && if mems == [] then s' == s
       else
         var n := |mems| - 1;
         exists mid :: ModelRun(s, client, mems[..n], answers[..n], mid)
                       && ModelStep(mid, client(answers[..n]), mems[n], answers[n], s')
  }

  /** Whatever answers a plain map could have given it, the client goes on with a legal operation. */
  ghost predicate AlwaysLegal<K(!new), V(!new)>(s: Model<K, V>, client: Client<K, V>, mems: seq<Memory>) {
    forall answers, s' :: |answers| < |mems| && ModelRun(s, client, mems[..|answers|], answers, s') ==> Legal(s', client(answers))
  }

  /** The pointers kept are for their keys. */
  ghost predicate Prepared<K(!new), V(!new)>(h: HashMap<K, V>, pointers: map<K, AddPtr>) {
    forall k :: k in pointers ==> pointers[k].keyHash == PrepareHash(h.impl.hash(k))
  }

  method PerformAdding<K(==, !new), V(!new)>(h: HashMap<K, V>, op: Op<K, V>, mem: Memory) returns (answer: Answer<V>)
    requires h.impl.Valid() && (op.Put? || op.PutNew? || op.GetOrAdd?) && (op.PutNew? ==> op.k !in h.impl.contents)
    modifies h.impl, h.impl.table
    ensures h.impl.Valid() && (h.impl.table == old(h.impl.table) || fresh(h.impl.table))
    ensures MapStep(old(h.impl.contents), op, mem, answer, h.impl.contents)
  {
    hide TableModel.Sound, Scarce;
    match op
    case Put(k, v) =>
      var ok := h.Put(k, v, mem);
      answer := Done(ok);
    case PutNew(k, v) =>
      var ok := h.PutNew(k, v, mem);
      answer := Done(ok);
    case GetOrAdd(k, default) =>
      var r := h.LookupWithDefault(k, default, mem);
      answer := Found(r);
  }

  method PerformSweep<K(==, !new), V(!new)>(h: HashMap<K, V>, op: Op<K, V>, mem: Memory) returns (answer: Answer<V>)
    requires h.impl.Valid() && (op.Sweep? || op.SweepAndRekey?) && (op.SweepAndRekey? ==> Sane(h.impl.contents, op.policy))
    modifies h.impl, h.impl.table
    ensures h.impl.Valid() && (h.impl.table == old(h.impl.table) || fresh(h.impl.table))
    ensures MapStep(old(h.impl.contents), op, mem, answer, h.impl.contents)
  {
    hide TableModel.Sound, Sane, Swept, Survivors;
    match op
    case Sweep(dead, update) =>
      GCHashMaps.Sweep(h.impl, dead, update, mem.shrinkOk);
      answer := Done(true);
    case SweepAndRekey(policy) =>
      GCHashMaps.SweepAndRekey(h.impl, policy, mem.allocOk, mem.shrinkOk);
      answer := Done(true);
  }

  method PerformPlain<K(==, !new), V(!new)>(h: HashMap<K, V>, op: Op<K, V>, mem: Memory) returns (answer: Answer<V>)
    requires h.impl.Valid() && (op.Get? || op.Remove? || op.Rekey? || op.Clear?)
    requires op.Rekey? && op.oldKey in h.impl.contents && op.newKey in h.impl.contents ==> op.newKey == op.oldKey
    modifies h.impl, h.impl.table
    ensures h.impl.Valid() && (h.impl.table == old(h.impl.table) || fresh(h.impl.table))
    ensures MapStep(old(h.impl.contents), op, mem, answer, h.impl.contents)
  {
    hide TableModel.Sound;
    match op
    case Get(k) =>
      var r := h.Get(k);
      answer := Found(r);
    case Remove(k) =>
      h.Remove(k, mem);
      answer := Done(true);
    case Rekey(o, n) =>
      var ok := h.RekeyAs(o, n, mem);
      answer := Done(ok);
    case Clear =>
      h.Clear();
      answer := Done(true);
  }

  method PerformPointer<K(==, !new), V(!new)>(h: HashMap<K, V>, pointers: map<K, AddPtr>, op: Op<K, V>, mem: Memory)
    returns (answer: Answer<V>, pointers': map<K, AddPtr>)
    requires h.impl.Valid() && Prepared(h, pointers) && (op.PrepareAdd? || op.RelookupOrAdd?)
    requires op.RelookupOrAdd? ==> op.k in pointers
    modifies h.impl, h.impl.table
    ensures h.impl.Valid() && (h.impl.table == old(h.impl.table) || fresh(h.impl.table)) && Prepared(h, pointers')
    ensures MapStep(old(h.impl.contents), op, mem, answer, h.impl.contents)
    ensures pointers'.Keys == PreparedAfter(pointers.Keys, op)
  {
    hide TableModel.Sound, Scarce;
    pointers' := pointers;
    match op
    case PrepareAdd(k) =>
      var p := h.LookupForAdd(k);
      pointers' := pointers[k := p];
      answer := Done(true);
    case RelookupOrAdd(k, v) =>
      var ok := h.RelookupOrAdd(pointers[k], k, v, mem);
      answer := Done(ok);
  }

  method Perform<K(==, !new), V(!new)>(h: HashMap<K, V>, pointers: map<K, AddPtr>, op: Op<K, V>, mem: Memory)
    returns (answer: Answer<V>, pointers': map<K, AddPtr>)
    requires h.impl.Valid() && Prepared(h, pointers) && Legal(Model(h.impl.contents, pointers.Keys), op)
    modifies h.impl, h.impl.table
    ensures h.impl.Valid() && (h.impl.table == old(h.impl.table) || fresh(h.impl.table)) && Prepared(h, pointers')
    ensures ModelStep(Model(old(h.impl.contents), pointers.Keys), op, mem, answer, Model(h.impl.contents, pointers'.Keys))
  {
    hide TableModel.Sound, Sane, MapStep;
    pointers' := pointers;
    if op.Put? || op.PutNew? || op.GetOrAdd? {
      answer := PerformAdding(h, op, mem);
    } else if op.Sweep? || op.SweepAndRekey? {
      answer := PerformSweep(h, op, mem);
    } else if op.PrepareAdd? || op.RelookupOrAdd? {
      answer, pointers' := PerformPointer(h, pointers, op, mem);
    } else {
      answer := PerformPlain(h, op, mem);
    }
  }

  /** Every run of a client that keeps to what is legal, under any pattern of allocation failures, goes as with a plain map. */
  method Run<K(==, !new), V(!new)>(h: HashMap<K, V>, client: Client<K, V>, mems: seq<Memory>) returns (answers: seq<Answer<V>>)
    requires h.impl.Valid() && AlwaysLegal(Model(h.impl.contents, {}), client, mems)
    modifies h.impl, h.impl.table
    ensures h.impl.Valid()
    ensures exists prepared :: ModelRun(Model(old(h.impl.contents), {}), client, mems, answers, Model(h.impl.contents, prepared))
  {
    hide TableModel.Sound, ModelStep, Legal;
    answers := [];
    var pointers: map<K, AddPtr> := map[];
    for i := 0 to |mems|
      invariant h.impl.Valid() && (h.impl.table == old(h.impl.table) || fresh(h.impl.table)) && Prepared(h, pointers)
      invariant |answers| == i
      invariant ModelRun(Model(old(h.impl.contents), {}), client, mems[..i], answers, Model(h.impl.contents, pointers.Keys))
    {
      ghost var before := Model(h.impl.contents, pointers.Keys);
      var op := client(answers);
      var answer;
      answer, pointers := Perform(h, pointers, op, mems[i]);
      RunExtends(Model(old(h.impl.contents), {}), client, mems[..i], answers, before, mems[i], answer,
                 Model(h.impl.contents, pointers.Keys));
      assert mems[..i + 1] == mems[..i] + [mems[i]];
      answers := answers + [answer];
    }
    assert mems[..|mems|] == mems;
  }

  lemma RunExtends<K(!new), V(!new)>(s: Model<K, V>, client: Client<K, V>, mems: seq<Memory>, answers: seq<Answer<V>>, mid: Model<K, V>,
                                     mem: Memory, answer: Answer<V>, s': Model<K, V>)
    requires ModelRun(s, client, mems, answers, mid) && ModelStep(mid, client(answers), mem, answer, s')
    ensures ModelRun(s, client, mems + [mem], answers + [answer], s')
  {
    hide ModelStep;
    assert (answers + [answer])[..|mems|] == answers && (mems + [mem])[..|mems|] == mems;
  }

  /** A client that puts a new key and, if it is refused, puts it again keeps to what is legal. */
  function Retry(answers: seq<Answer<int>>): Op<int, int> {
    if answers == [] || answers[|answers| - 1] == Done(false) then PutNew(1, 1) else Get(1)
  }

  lemma RetryIsLegal(mems: seq<Memory>)
    ensures AlwaysLegal(Model(map[], {}), Retry, mems)
  {
  }
}
