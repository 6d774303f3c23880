/**
 * Results of analyses, remembered per (code, file) key: a session keeps them in memory and in its copy of a cache
 * file that any number of sessions share. A session reads the file, merges it with what it has, and replaces it in
 * one go; nothing stops another session from replacing it in between.
 */
module ResultCache {
  import opened Prelude

  datatype File<K, V> = Missing | Corrupt | Data(entries: map<K, V>)

  /** A missing or unreadable cache only means that the work has to be done again. */
  function Entries<K, V>(file: File<K, V>): map<K, V> {
    if file.Data? then file.entries else map[]
  }

  ghost predicate Faithful<K(!new), V>(truth: K -> V, m: map<K, V>) {
    forall k :: k in m ==> m[k] == truth(k)
  }

  // ----- mapping over a pool of workers -----

  function Mapped<K, V>(truth: K -> V, items: seq<K>): seq<V> {
    seq(|items|, i requires 0 <= i < |items| => truth(items[i]))
  }

  function CeilDiv(a: nat, b: nat): nat
    requires b > 0
  {
    (a + b - 1) / b
  }

  /** Enough chunks for four rounds per worker, of at most eight items. */
  function ChunkSize(n: nat, workers: nat): (size: nat)
    requires workers > 0
    ensures 1 <= size <= 8
  {
    var wanted := CeilDiv(n, 4 * workers);
    if wanted > 8 then 8 else if wanted < 1 then 1 else wanted
  }

  function Chunk<K>(items: seq<K>, size: nat, c: nat): seq<K>
    requires c * size <= |items|
  {
    if c * size + size <= |items| then items[c * size..c * size + size] else items[c * size..]
  }

  lemma ChunkWithin(n: nat, size: nat, c: nat)
    requires size > 0 && c < CeilDiv(n, size)
    ensures c * size < n
    ensures c * size + size == (c + 1) * size
  {
    var total := CeilDiv(n, size);
    assert (total - 1) * size < n;
    assert c * size <= (total - 1) * size;
  }

  lemma ChunksEnd(n: nat, size: nat)
    requires size > 0
    ensures CeilDiv(n, size) * size >= n
  {
  }

  /** The workers finish the chunks in any order; the results come back in the order of the items. */
  method Pmap<K, V>(truth: K -> V, items: seq<K>, workers: nat, order: seq<nat>) returns (results: seq<V>)
    requires workers > 0
    requires forall c: nat :: c < CeilDiv(|items|, ChunkSize(|items|, workers)) ==> c in order
    requires forall k :: 0 <= k < |order| ==> order[k] < CeilDiv(|items|, ChunkSize(|items|, workers))
    ensures results == Mapped(truth, items)
  {
    if |items| < 2 {
      return Mapped(truth, items);
    }
    var size := ChunkSize(|items|, workers);
    var chunks := CeilDiv(|items|, size);
    var done: map<nat, seq<V>> := map[];
    for k := 0 to |order|
      invariant forall j :: 0 <= j < k ==> order[j] in done
      invariant forall c: nat :: c in done ==> c < chunks && c * size <= |items| &&
                                               done[c] == Mapped(truth, Chunk(items, size, c))
    {
      ChunkWithin(|items|, size, order[k]);
      done := done[order[k] := Mapped(truth, Chunk(items, size, order[k]))];
    }
    results := [];
    for c := 0 to chunks
      invariant |results| == if c * size <= |items| then c * size else |items|
      invariant results == Mapped(truth, items[..|results|])
    {
      ChunkWithin(|items|, size, c);
      assert c in order;
      results := results + done[c];
      assert c * size <= |items|;
    }
    ChunksEnd(|items|, size);
    assert items[..|items|] == items;
  }

  // ----- one session -----

  datatype Session<K, V> = Session(memory: map<K, V>, disk: Option<map<K, V>>, dirty: bool)

  function Fresh<K, V>(): Session<K, V> {
    Session(map[], None, false)
  }

  function AfterLoad<K, V>(s: Session<K, V>, file: File<K, V>): Session<K, V> {
    if s.disk.None? then s.(disk := Some(Entries(file))) else s
  }

  predicate Known<K(==), V>(s: Session<K, V>, k: K)
    requires s.disk.Some?
  {
    k in s.memory || k in s.disk.value
  }

  function News<K(==), V>(s: Session<K, V>, truth: K -> V, keys: seq<K>): map<K, V>
    requires s.disk.Some?
  {
    map k | k in keys && !Known(s, k) :: truth(k)
  }

  function AfterCompute<K(==), V>(s: Session<K, V>, truth: K -> V, keys: seq<K>): Session<K, V>
    requires s.disk.Some?
  {
    var news := News(s, truth, keys);
    Session(s.memory + news, Some(s.disk.value + news), s.dirty || exists k :: k in keys && !Known(s, k))
  }

  /** Whether a session has a key without computing it: in memory, in its copy, or without one in the file it reads. */
  predicate Held<K(==), V>(s: Session<K, V>, file: File<K, V>, k: K) {
    k in s.memory || if s.disk.Some? then k in s.disk.value else file.Data? && k in file.entries
  }

  /** What a save is about to write: the file as just read, overridden by what this session has. */
  function Merge<K, V>(s: Session<K, V>, file: File<K, V>): map<K, V>
    requires s.disk.Some?
  {
    s.disk.value + Entries(file) + s.disk.value
  }

  function Recall<K(==), V>(s: Session<K, V>, keys: seq<K>): seq<V>
    requires s.disk.Some? && forall k :: k in keys ==> Known(s, k)
  {
    seq(|keys|, i requires 0 <= i < |keys| && Known(s, keys[i])
                => if keys[i] in s.memory then s.memory[keys[i]] else s.disk.value[keys[i]])
  }

  ghost predicate SessionFaithful<K(!new), V>(truth: K -> V, s: Session<K, V>) {
    Faithful(truth, s.memory) && (s.disk.Some? ==> Faithful(truth, s.disk.value))
  }

  /** After the computation every key is known, and what is recalled is what the function would give, in order. */
  lemma RecallsTruth<K(!new), V>(truth: K -> V, s: Session<K, V>, keys: seq<K>)
    requires s.disk.Some? && SessionFaithful(truth, s)
    ensures var t := AfterCompute(s, truth, keys);
            && SessionFaithful(truth, t)
            && (forall k :: k in keys ==> Known(t, k))
            && Recall(t, keys) == Mapped(truth, keys)
  {
  }

  // ----- the module of one session -----

  class SimMap<K(==,!new), V> {
    var memory: map<K, V>
    var disk: Option<map<K, V>>
    var dirty: bool

    function State(): Session<K, V>
      reads this
    {
      Session(memory, disk, dirty)
    }

    constructor ()
      ensures State() == Fresh()
    {
      memory, disk, dirty := map[], None, false;
    }

    method LoadDiskCache(file: File<K, V>)
      modifies `disk
      ensures State() == AfterLoad(old(State()), file)
    {
      if disk.None? {
        disk := Some(if file.Data? then file.entries else map[]);
      }
    }

    /** Computes what is not remembered over the pool, whatever order the workers finish in. */
    method Compute(truth: K -> V, keys: seq<K>, workers: nat, schedule: nat -> seq<nat>) returns (computed: bool)
      requires disk.Some? && workers > 0 && Completes(schedule, workers)
      modifies this
      ensures State() == AfterCompute(old(State()), truth, keys)
      ensures computed <==> exists k :: k in keys && !Known(old(State()), k)
    {
      ghost var before := State();
      var missing: seq<K> := [];
      for i := 0 to |keys|
        invariant forall k :: k in missing <==> k in keys[..i] && !Known(before, k)
      {
        assert keys[..i + 1] == keys[..i] + [keys[i]];
        if keys[i] !in memory && keys[i] !in disk.value {
          missing := missing + [keys[i]];
        }
      }
      assert keys[..|keys|] == keys;
      if missing == [] {
        NothingNew(before, truth, keys);
        return false;
      }
      var values := Pmap(truth, missing, workers, schedule(|missing|));
      var news: map<K, V> := map[];
      for j := 0 to |missing|
        invariant news.Keys == set k | k in missing[..j]
        invariant forall k :: k in news ==> news[k] == truth(k)
      {
        assert missing[..j + 1] == missing[..j] + [missing[j]];
        news := news[missing[j] := values[j]];
      }
      assert missing[..|missing|] == missing;
      assert news == News(before, truth, keys);
      memory := memory + news;
      disk := Some(disk.value + news);
      dirty := true;
      assert missing[0] in keys && !Known(before, missing[0]);
      computed := true;
    }

    /** The first half of a save: what will be written, given what the file holds right now. */
    method MergeFile(file: File<K, V>) returns (merged: map<K, V>)
      requires disk.Some?
      ensures merged == Merge(State(), file)
    {
      merged := disk.value;
      if file.Data? {
        merged := merged + file.entries;
      }
      merged := merged + disk.value;
    }

    method Collect(keys: seq<K>) returns (values: seq<V>)
      requires disk.Some? && forall k :: k in keys ==> Known(State(), k)
      ensures values == Recall(State(), keys)
    {
      values := [];
      for i := 0 to |keys|
        invariant values == Recall(State(), keys[..i])
      {
        assert keys[..i + 1] == keys[..i] + [keys[i]];
        assert keys[i] in keys;
        values := values + [if keys[i] in memory then memory[keys[i]] else disk.value[keys[i]]];
      }
      assert keys[..|keys|] == keys;
    }

    /**
     sim_map, with the file as it is when it is loaded and when it is merged. The values are those of the function,
     in order, whatever the session remembered; what is written has everything the session knows.
     */
    method Run(truth: K -> V, keys: seq<K>, workers: nat, schedule: nat -> seq<nat>, atLoad: File<K, V>,
               atMerge: File<K, V>)
      returns (values: seq<V>, written: Option<map<K, V>>)
      requires workers > 0 && Completes(schedule, workers)
      requires SessionFaithful(truth, State()) && Faithful(truth, Entries(atLoad)) && Faithful(truth, Entries(atMerge))
      modifies this
      ensures values == Mapped(truth, keys)
      ensures SessionFaithful(truth, State()) && disk.Some?
      ensures written.Some? ==> Faithful(truth, written.value) && !dirty
      ensures written.Some? <==> exists k :: k in keys && !Held(old(State()), atLoad, k)
      ensures forall k :: k in memory <==> k in old(memory) || (k in keys && !Held(old(State()), atLoad, k))
      ensures forall k :: k in disk.value <==>
                || (k in keys && !Held(old(State()), atLoad, k))
                || if old(disk).Some? then k in old(disk).value else atLoad.Data? && k in atLoad.entries
      ensures written.Some? ==>
                forall k :: k in written.value <==> k in disk.value || (atMerge.Data? && k in atMerge.entries)
    {
      hide Completes, Mapped, News;
      written := None;
      LoadDiskCache(atLoad);
      ComputedKeys(old(State()), atLoad, truth, keys);
      RecallsTruth(truth, State(), keys);
      var computed := Compute(truth, keys, workers, schedule);
      if computed {
        var merged := MergeFile(atMerge);
        MergeFaithful(truth, State(), atMerge);
        written := Some(merged);
        dirty := false;
      }
      values := Collect(keys);
    }
  }

  /** A session without a copy reads the file; what it then computes is exactly what it did not hold. */
  lemma ComputedKeys<K(!new), V>(s: Session<K, V>, file: File<K, V>, truth: K -> V, keys: seq<K>)
    ensures var t := AfterLoad(s, file);
            && t.disk.Some? && (forall k :: Known(t, k) <==> Held(s, file, k))
            && (forall k :: k in AfterCompute(t, truth, keys).memory <==>
                              k in s.memory || (k in keys && !Held(s, file, k)))
            && (forall k :: k in AfterCompute(t, truth, keys).disk.value <==>
                              k in t.disk.value || (k in keys && !Held(s, file, k)))
  {
  }

  /** Enough chunks for four rounds per worker, unless they would hold more than eight items. */
  lemma ChunksBalanced(n: nat, workers: nat)
    requires workers > 0
    ensures var size := ChunkSize(n, workers);
            && (size == 8 || n <= 4 * workers * size)
            && (size == 1 || 4 * workers * (size - 1) < n)
  {
    hide CeilDiv;
    CeilBetween(n, 4 * workers);
    Capped(n, 4 * workers, CeilDiv(n, 4 * workers), ChunkSize(n, workers));
  }

  lemma Capped(n: nat, rounds: nat, wanted: nat, size: nat)
    requires rounds > 0 && Count(wanted, rounds) >= n && (wanted > 0 ==> Count(wanted - 1, rounds) < n)
    requires size == if wanted > 8 then 8 else if wanted < 1 then 1 else wanted
    ensures (size == 8 || n <= rounds * size) && (size == 1 || rounds * (size - 1) < n)
  {
    if wanted > 8 {
      LargerCount(7, wanted - 1, rounds);
    }
  }

  function Count(chunks: nat, size: nat): nat {
    chunks * size
  }

  lemma CeilBetween(a: nat, b: nat)
    requires b > 0
    ensures Count(CeilDiv(a, b), b) >= a && (CeilDiv(a, b) > 0 ==> Count(CeilDiv(a, b) - 1, b) < a)
  {
  }

  lemma LargerCount(a: nat, b: nat, c: nat)
    requires a <= b
    ensures Count(a, c) <= Count(b, c)
  {
  }

  lemma MergeFaithful<K(!new), V>(truth: K -> V, s: Session<K, V>, file: File<K, V>)
    requires s.disk.Some? && SessionFaithful(truth, s) && Faithful(truth, Entries(file))
    ensures Faithful(truth, Merge(s, file))
    ensures Merge(s, file).Keys == s.disk.value.Keys + Entries(file).Keys
  {
  }

  ghost predicate Completes(schedule: nat -> seq<nat>, workers: nat)
    requires workers > 0
  {
    forall n: nat ::
      && (forall c: nat :: c < CeilDiv(n, ChunkSize(n, workers)) ==> c in schedule(n))
      && (forall k :: 0 <= k < |schedule(n)| ==> schedule(n)[k] < CeilDiv(n, ChunkSize(n, workers)))
  }

  lemma NothingNew<K, V>(s: Session<K, V>, truth: K -> V, keys: seq<K>)
    requires s.disk.Some? && forall k :: k in keys ==> Known(s, k)
    ensures AfterCompute(s, truth, keys) == s
  {
    assert News(s, truth, keys) == map[];
    assert s.disk.value + map[] == s.disk.value && s.memory + map[] == s.memory;
  }

  // ----- any number of sessions -----

  /** One session, and what it is about to write between merging and replacing. */
  datatype Local<K, V> = Local(session: Session<K, V>, pending: Option<map<K, V>>)

  datatype World<K, V> = World(file: File<K, V>, locals: seq<Local<K, V>>)

  datatype Action<K> =
    | Load(i: nat) | Compute(i: nat, keys: seq<K>) | ReadMerge(i: nat) | Replace(i: nat) | GiveUp(i: nat)
    | Clear(i: nat, fileToo: bool) | Damage(gone: bool)

  ghost predicate Becomes<K, V>(w: World<K, V>, i: nat, file: File<K, V>, local: Local<K, V>, w': World<K, V>) {
    i < |w.locals| && w' == World(file, w.locals[i := local])
  }

  /** One atomic step of one session, or of something outside that removes or truncates the file. */
  ghost predicate Next<K(!new), V>(truth: K -> V, w: World<K, V>, a: Action<K>, w': World<K, V>) {
    match a
    case Load(i) =>
      && i < |w.locals|
      && Becomes(w, i, w.file, w.locals[i].(session := AfterLoad(w.locals[i].session, w.file)), w')
    case Compute(i, keys) =>
      && i < |w.locals| && w.locals[i].session.disk.Some? && w.locals[i].pending.None?
      && Becomes(w, i, w.file, w.locals[i].(session := AfterCompute(w.locals[i].session, truth, keys)), w')
    case ReadMerge(i) =>
      && i < |w.locals| && w.locals[i].session.disk.Some? && w.locals[i].session.dirty
      && Becomes(w, i, w.file, w.locals[i].(pending := Some(Merge(w.locals[i].session, w.file))), w')
    case Replace(i) =>
      && i < |w.locals| && w.locals[i].pending.Some?
      && Becomes(w, i, Data(w.locals[i].pending.value),
                 Local(w.locals[i].session.(dirty := false), None), w')
    case GiveUp(i) =>
      i < |w.locals| && Becomes(w, i, w.file, w.locals[i].(pending := None), w')
    case Clear(i, fileToo) =>
      && i < |w.locals| && w.locals[i].pending.None?
      && Becomes(w, i, if fileToo then Missing else w.file, Local(Session(map[], Some(map[]), false), None), w')
    case Damage(gone) =>
      w' == w.(file := if gone then Missing else Corrupt)
  }

  ghost predicate IsRun<K(!new), V>(truth: K -> V, actions: seq<Action<K>>, states: seq<World<K, V>>) {
    && |states| == |actions| + 1
    && (forall i :: 0 <= i < |states[0].locals| ==> states[0].locals[i] == Local(Fresh(), None))
    && (forall t :: 0 <= t < |actions| ==> Next(truth, states[t], actions[t], states[t + 1]))
  }

  ghost predicate LocalFaithful<K(!new), V>(truth: K -> V, l: Local<K, V>) {
    SessionFaithful(truth, l.session) && (l.pending.Some? ==> Faithful(truth, l.pending.value))
  }

  ghost predicate WorldFaithful<K(!new), V>(truth: K -> V, w: World<K, V>) {
    Faithful(truth, Entries(w.file)) && forall i :: 0 <= i < |w.locals| ==> LocalFaithful(truth, w.locals[i])
  }

  lemma StepFaithful<K(!new), V>(truth: K -> V, w: World<K, V>, a: Action<K>, w': World<K, V>)
    requires WorldFaithful(truth, w) && Next(truth, w, a, w')
    ensures WorldFaithful(truth, w')
  {
    if a.Compute? {
      RecallsTruth(truth, w.locals[a.i].session, a.keys);
    } else if a.ReadMerge? {
      MergeFaithful(truth, w.locals[a.i].session, w.file);
    }
    hide Mapped, Recall, Merge, AfterCompute, Entries;
  }

  /** However the sessions interleave: every entry in memory, in a copy, in flight or in the file is the true one. */
  lemma {:induction false} RunFaithful<K(!new), V>(truth: K -> V, actions: seq<Action<K>>, states: seq<World<K, V>>,
                                                   t: nat)
    requires IsRun(truth, actions, states) && t <= |actions| && Faithful(truth, Entries(states[0].file))
    ensures WorldFaithful(truth, states[t])
  {
    if t > 0 {
      RunFaithful(truth, actions, states, t - 1);
      StepFaithful(truth, states[t - 1], actions[t - 1], states[t]);
    }
  }

  /** So whatever a session computes at any moment of any run, it returns what the function would give, in order. */
  lemma AnswersAreTrue<K(!new), V>(truth: K -> V, actions: seq<Action<K>>, states: seq<World<K, V>>, t: nat)
    requires IsRun(truth, actions, states) && t < |actions| && Faithful(truth, Entries(states[0].file))
    requires actions[t].Compute?
    ensures actions[t].i < |states[t + 1].locals|
    ensures var s := states[t + 1].locals[actions[t].i].session;
            && s.disk.Some? && (forall k :: k in actions[t].keys ==> Known(s, k))
            && Recall(s, actions[t].keys) == Mapped(truth, actions[t].keys)
  {
    RunFaithful(truth, actions, states, t);
    assert Next(truth, states[t], actions[t], states[t + 1]);
    RecallsTruth(truth, states[t].locals[actions[t].i].session, actions[t].keys);
  }

  /** A session without a copy that loads the file computes nothing that was saved there. */
  lemma SavedIsReused<K(!new), V>(truth: K -> V, w: World<K, V>, i: nat, loaded: World<K, V>, keys: seq<K>,
                                  computed: World<K, V>)
    requires Next(truth, w, Load(i), loaded) && Next(truth, loaded, Compute(i, keys), computed)
    requires w.locals[i].session.disk.None? && w.file.Data? && forall k :: k in keys ==> k in w.file.entries
    ensures computed == loaded
  {
    NothingNew(loaded.locals[i].session, truth, keys);
    hide AfterCompute;
  }

  /** And whatever a session has computed by the time it replaces the file is in the file afterwards. */
  lemma SavesAll<K(!new), V>(truth: K -> V, actions: seq<Action<K>>, states: seq<World<K, V>>, t: nat)
    requires IsRun(truth, actions, states) && t < |actions| && actions[t].Replace?
    ensures var i := actions[t].i;
            && i < |states[t].locals| && states[t].locals[i].session.disk.Some? && states[t + 1].file.Data?
            && forall k :: k in states[t].locals[i].session.disk.value ==> k in states[t + 1].file.entries
  {
    hide Merge;
    assert Next(truth, states[t], actions[t], states[t + 1]);
    var i := actions[t].i;
    var r := PendingFrom(truth, actions, states, t, i);
    MergeKeys(states[r].locals[i].session, states[r].file);
  }

  // ----- what a save can lose -----

  /** Only a replace puts anything into the file. */
  lemma StepAdds<K(!new), V>(truth: K -> V, w: World<K, V>, a: Action<K>, w': World<K, V>)
    requires Next(truth, w, a, w') && !a.Replace?
    ensures Entries(w'.file).Keys <= Entries(w.file).Keys
    ensures !a.Damage? && !(a.Clear? && a.fileToo) ==> w'.file == w.file
  {
    hide AfterCompute, AfterLoad, Merge;
  }

  /** What is about to be written survives every step but the session's own merge, replace or giving up. */
  lemma StepKeepsPending<K(!new), V>(truth: K -> V, w: World<K, V>, a: Action<K>, w': World<K, V>, i: nat)
    requires Next(truth, w, a, w') && a != ReadMerge(i)
    requires i < |w'.locals| && w'.locals[i].pending.Some?
    ensures i < |w.locals| && w'.locals[i].pending == w.locals[i].pending && a != Replace(i)
    ensures w.locals[i].session.disk.Some? ==> w'.locals[i].session == w.locals[i].session
  {
    hide AfterCompute, Merge;
  }

  /** What a session is about to write is its merge with the file as it was at its latest read. */
  lemma {:induction false} PendingFrom<K(!new), V>(truth: K -> V, actions: seq<Action<K>>, states: seq<World<K, V>>,
                                                   t: nat, i: nat) returns (r: nat)
    requires IsRun(truth, actions, states) && t <= |actions|
    requires i < |states[t].locals| && states[t].locals[i].pending.Some?
    ensures r < t && actions[r] == ReadMerge(i) && i < |states[r].locals| && states[r].locals[i].session.disk.Some?
    ensures states[t].locals[i].session == states[r].locals[i].session
    ensures states[t].locals[i].pending == Some(Merge(states[r].locals[i].session, states[r].file))
    ensures forall s :: r < s < t ==> actions[s] != ReadMerge(i) && actions[s] != Replace(i)
  {
    assert t > 0;
    assert Next(truth, states[t - 1], actions[t - 1], states[t]);
    if actions[t - 1] == ReadMerge(i) {
      r := t - 1;
    } else {
      StepKeepsPending(truth, states[t - 1], actions[t - 1], states[t], i);
      r := PendingFrom(truth, actions, states, t - 1, i);
    }
  }

  /** A key that was not in the file and is later was put there by somebody's replace. */
  lemma {:induction false} AddedBy<K(!new), V>(truth: K -> V, actions: seq<Action<K>>, states: seq<World<K, V>>,
                                               s: nat, u: nat, k: K) returns (v: nat)
    requires IsRun(truth, actions, states) && s <= u <= |actions|
    requires k !in Entries(states[s].file) && k in Entries(states[u].file)
    ensures s <= v < u && actions[v].Replace?
    ensures k !in Entries(states[v].file) && k in Entries(states[v + 1].file)
  {
    assert s < u;
    assert Next(truth, states[u - 1], actions[u - 1], states[u]);
    if k !in Entries(states[u - 1].file) {
      if !actions[u - 1].Replace? {
        StepAdds(truth, states[u - 1], actions[u - 1], states[u]);
      }
      v := u - 1;
    } else {
      v := AddedBy(truth, actions, states, s, u - 1, k);
    }
  }

  /** The key is in the file before this step and not after it. */
  ghost predicate Loses<K(!new), V>(states: seq<World<K, V>>, t: nat, k: K)
    requires t + 1 < |states|
  {
    k in Entries(states[t].file) && k !in Entries(states[t + 1].file)
  }

  /** Step r is the read whose merge step t writes. */
  ghost predicate LatestRead<K>(actions: seq<Action<K>>, r: nat, t: nat) {
    && r < t < |actions| && actions[t].Replace? && actions[r] == ReadMerge(actions[t].i)
    && forall s :: r < s < t ==> actions[s] != ReadMerge(actions[t].i)
  }

  /**
   What a replace loses, in any run: exactly the results that came into the file after the session had read it and
   that the session does not hold itself.
   */
  lemma LostExactly<K(!new), V>(truth: K -> V, actions: seq<Action<K>>, states: seq<World<K, V>>, t: nat)
    returns (r: nat)
    requires IsRun(truth, actions, states) && t < |actions| && actions[t].Replace?
    ensures var i := actions[t].i;
            && LatestRead(actions, r, t) && (forall s :: r < s < t ==> actions[s] != Replace(i))
            && i < |states[t].locals| && states[t].locals[i].session.disk.Some?
            && forall k :: Loses(states, t, k) <==>
                 k in Entries(states[t].file) && k !in Entries(states[r].file) &&
                 k !in states[t].locals[i].session.disk.value
  {
    hide Merge;
    assert Next(truth, states[t], actions[t], states[t + 1]);
    var i := actions[t].i;
    r := PendingFrom(truth, actions, states, t, i);
    MergeKeys(states[r].locals[i].session, states[r].file);
  }

  lemma MergeKeys<K, V>(s: Session<K, V>, file: File<K, V>)
    requires s.disk.Some?
    ensures Merge(s, file).Keys == s.disk.value.Keys + Entries(file).Keys
  {
  }

  /** And each of them was put there by another session, between that read and the replace. */
  lemma LostToAnother<K(!new), V>(truth: K -> V, actions: seq<Action<K>>, states: seq<World<K, V>>, t: nat, k: K)
    returns (r: nat, v: nat)
    requires IsRun(truth, actions, states) && t < |actions| && actions[t].Replace? && Loses(states, t, k)
    ensures LatestRead(actions, r, t) && r < v < t && actions[v].Replace? && actions[v].i != actions[t].i
    ensures k !in Entries(states[v].file) && k in Entries(states[v + 1].file)
  {
    r := LostExactly(truth, actions, states, t);
    v := AddedBy(truth, actions, states, r, t, k);
    assert actions[r] != actions[v];
  }

  /** No session writes between another one's read and replace, and nothing outside takes the file away. */
  ghost predicate Undisturbed<K>(actions: seq<Action<K>>) {
    && (forall t :: 0 <= t < |actions| ==> !actions[t].Damage? && !(actions[t].Clear? && actions[t].fileToo))
    && (forall r: nat, t: nat :: LatestRead(actions, r, t) ==>
          forall v :: r < v < t && actions[v].Replace? ==> actions[v].i == actions[t].i)
  }

  /** Then the file only ever grows. */
  lemma {:induction false} NothingLost<K(!new), V>(truth: K -> V, actions: seq<Action<K>>, states: seq<World<K, V>>,
                                                   t: nat, u: nat)
    requires IsRun(truth, actions, states) && Undisturbed(actions) && t <= u <= |actions|
    ensures Entries(states[t].file).Keys <= Entries(states[u].file).Keys
  {
    hide Merge, Next;
    if t < u {
      NothingLost(truth, actions, states, t, u - 1);
      if actions[u - 1].Replace? {
        forall k | k in Entries(states[u - 1].file)
          ensures k in Entries(states[u].file)
        {
          if Loses(states, u - 1, k) {
            NotLost(truth, actions, states, u - 1, k);
          }
        }
      } else {
        assert Next(truth, states[u - 1], actions[u - 1], states[u]);
        StepAdds(truth, states[u - 1], actions[u - 1], states[u]);
      }
    }
  }

  lemma NotLost<K(!new), V>(truth: K -> V, actions: seq<Action<K>>, states: seq<World<K, V>>, t: nat, k: K)
    requires IsRun(truth, actions, states) && Undisturbed(actions) && t < |actions| && actions[t].Replace?
    ensures !Loses(states, t, k)
  {
    if Loses(states, t, k) {
      var r, v := LostToAnother(truth, actions, states, t, k);
      assert false;
    }
  }

  lemma FirstResult<K(!new), V>(truth: K -> V, k: K)
    ensures AfterLoad(Fresh<K, V>(), Missing).disk.Some?
    ensures var s := AfterCompute(AfterLoad(Fresh<K, V>(), Missing), truth, [k]);
            s.disk.Some? && s.dirty && Merge(s, Missing).Keys == {k}
  {
    var loaded := AfterLoad(Fresh<K, V>(), Missing);
    assert k in [k] && !Known(loaded, k);
    assert News(loaded, truth, [k]).Keys == {k};
  }

  lemma OneStep<K(!new), V>(truth: K -> V, before: seq<Action<K>>, past: seq<World<K, V>>, a: Action<K>,
                            w: World<K, V>)
    returns (actions: seq<Action<K>>, states: seq<World<K, V>>)
    requires |past| == |before| + 1 && IsRun(truth, before, past) && Next(truth, past[|before|], a, w)
    ensures actions == before + [a] && states == past + [w] && |states| == |actions| + 1
    ensures IsRun(truth, actions, states) && states[|actions|] == w && a in actions
    ensures forall b :: b in before ==> b in actions
  {
    hide Next;
    actions, states := before + [a], past + [w];
    assert actions[|before|] == a;
  }

  /** Two sessions that have each computed one result. */
  lemma BothComputed<K(!new), V>(truth: K -> V, k1: K, k2: K)
    returns (actions: seq<Action<K>>, states: seq<World<K, V>>, s1: Session<K, V>, s2: Session<K, V>)
    ensures |states| == |actions| + 1 && IsRun(truth, actions, states) && Compute(0, [k1]) in actions
    ensures s1 == AfterCompute(AfterLoad(Fresh<K, V>(), Missing), truth, [k1])
    ensures s2 == AfterCompute(AfterLoad(Fresh<K, V>(), Missing), truth, [k2])
    ensures states[|actions|] == World(Missing, [Local(s1, None), Local(s2, None)])
  {
    FirstResult(truth, k1);
    var start := Local(Fresh<K, V>(), None);
    var loaded := Local(AfterLoad(Fresh<K, V>(), Missing), None);
    s1 := AfterCompute(loaded.session, truth, [k1]);
    s2 := AfterCompute(loaded.session, truth, [k2]);
    hide AfterCompute, AfterLoad, IsRun;
    actions, states := [], [World(Missing, [start, start])];
    NothingYet(truth, states[0]);
    actions, states := OneStep(truth, actions, states, Load(0), World(Missing, [loaded, start]));
    actions, states := OneStep(truth, actions, states, Load(1), World(Missing, [loaded, loaded]));
    actions, states := OneStep(truth, actions, states, Compute(0, [k1]), World(Missing, [Local(s1, None), loaded]));
    actions, states := OneStep(truth, actions, states, Compute(1, [k2]),
                               World(Missing, [Local(s1, None), Local(s2, None)]));
  }

  lemma NothingYet<K(!new), V>(truth: K -> V, w: World<K, V>)
    requires forall i :: 0 <= i < |w.locals| ==> w.locals[i] == Local(Fresh(), None)
    ensures IsRun(truth, [], [w])
  {
  }

  /** Otherwise an update can be lost: two sessions that merge before either replaces. */
  lemma UpdateLost<K(!new), V>(truth: K -> V, k1: K, k2: K)
    returns (actions: seq<Action<K>>, states: seq<World<K, V>>)
    requires k1 != k2
    ensures IsRun(truth, actions, states) && Compute(0, [k1]) in actions && Replace(0) in actions
    ensures k1 !in Entries(states[|actions|].file)
  {
    var s1, s2;
    actions, states, s1, s2 := BothComputed(truth, k1, k2);
    FirstResult(truth, k1);
    FirstResult(truth, k2);
    hide AfterCompute, AfterLoad, Merge, IsRun;
    var m1, m2 := Merge(s1, Missing), Merge(s2, Missing);
    var done1, done2 := Local(s1.(dirty := false), None), Local(s2.(dirty := false), None);
    var ready1, ready2 := Local(s1, Some(m1)), Local(s2, Some(m2));
    actions, states := OneStep(truth, actions, states, ReadMerge(0), World(Missing, [ready1, Local(s2, None)]));
    actions, states := OneStep(truth, actions, states, ReadMerge(1), World(Missing, [ready1, ready2]));
    actions, states := OneStep(truth, actions, states, Replace(0), World(Data(m1), [done1, ready2]));
    actions, states := OneStep(truth, actions, states, Replace(1), World(Data(m2), [done1, done2]));
  }
}
