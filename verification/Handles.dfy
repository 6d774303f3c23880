/**
 * Shared ownership of HDF5 identifiers. The library counts the references to each id and closes it at zero; a handle
 * holds at most one id and owns one reference to it. The library here knows every live handle, so that the count can
 * be compared with the handles holding the id and the references held outside of any handle.
 */
module Handles {

  const INVALID := -1

  /** Which handle holds which id. */
  ghost function Ids(handles: set<Handle>): map<Handle, int>
    reads handles
  {
    map h | h in handles :: h.id
  }

  ghost function Holders(ids: map<Handle, int>, id: int): set<Handle> {
    set h | h in ids && ids[h] == id
  }

  function One(b: bool): nat {
    if b then 1 else 0
  }

  class Library {
    /** The reference count of every id; closed at zero. */
    var refs: map<int, nat>
    ghost var handles: set<Handle>
    /** References owned outside of the handles: fresh ones, released ones, and those of other code. */
    ghost var external: map<int, nat>

    constructor ()
      ensures Valid() && handles == {} && external == map[]
    {
      refs, handles, external := map[], {}, map[];
    }

    function Count(id: int): nat
      reads `refs
    {
      if id in refs then refs[id] else 0
    }

    /** Nothing to hold, or an open id. */
    predicate IsOpen(id: int)
      reads `refs
    {
      id < 0 || Count(id) > 0
    }

    ghost function Outside(id: int): nat
      reads `external
    {
      if id in external then external[id] else 0
    }

    /** Every count is the references outside plus the live handles holding the id. */
    ghost predicate Valid()
      reads this, handles
    {
      forall id :: id >= 0 ==> Count(id) == Outside(id) + |Holders(Ids(handles), id)|
    }

    /** A valid handle never dangles: while it holds an id, the id is open. */
    lemma NeverDangles(h: Handle)
      requires Valid() && h in handles && h.id >= 0
      ensures Count(h.id) > 0
    {
      assert h in Holders(Ids(handles), h.id);
    }

    /** An open or create call of the library: a fresh id with one reference, owned by the caller. */
    method Create(id: int)
      requires Valid() && id >= 0 && Count(id) == 0
      modifies `refs, `external
      ensures Valid() && Count(id) == 1 && Outside(id) == 1
      ensures forall k :: k != id ==> Count(k) == old(Count(k)) && Outside(k) == old(Outside(k))
    {
      refs := refs[id := 1];
      external := external[id := 1];
    }

    /** Code outside of the handles gives up one reference it owns. */
    method CloseOutside(id: int)
      requires Valid() && id >= 0 && Outside(id) > 0
      modifies `refs, `external
      ensures Valid() && Outside(id) == old(Outside(id)) - 1
      ensures forall k :: Count(k) == old(Count(k)) - One(k == id)
      ensures forall k :: k != id ==> Outside(k) == old(Outside(k))
    {
      DecRef(id);
      external := external[id := external[id] - 1];
    }

    /** Increments the count of an open id; fails, without effect, on a closed one. */
    method IncRef(id: int)
      modifies `refs
      ensures forall k :: Count(k) == old(Count(k)) + One(k == id && old(Count(k)) > 0)
    {
      if Count(id) > 0 {
        refs := refs[id := refs[id] + 1];
      }
    }

    method DecRef(id: int)
      modifies `refs
      ensures forall k :: Count(k) == old(Count(k)) - One(k == id && old(Count(k)) > 0)
    {
      if Count(id) > 0 {
        refs := refs[id := refs[id] - 1];
      }
    }
  }

  /** When one handle changes its id, that id has one holder fewer and the new one has one more; no other moves. */
  lemma HoldersMove(ids: map<Handle, int>, h: Handle, id: int)
    requires h in ids
    ensures forall k :: |Holders(ids[h := id], k)| == |Holders(ids, k)| - One(ids[h] == k) + One(id == k)
  {
    hide Holders;
    forall k
      ensures |Holders(ids[h := id], k)| == |Holders(ids, k)| - One(ids[h] == k) + One(id == k)
    {
      HolderMoves(ids, h, id, k);
    }
  }

  lemma HolderMoves(ids: map<Handle, int>, h: Handle, id: int, k: int)
    requires h in ids
    ensures |Holders(ids[h := id], k)| == |Holders(ids, k)| - One(ids[h] == k) + One(id == k)
  {
    var others := set g | g in ids && g != h && ids[g] == k;
    assert Holders(ids, k) == others + if ids[h] == k then {h} else {};
    assert Holders(ids[h := id], k) == others + if id == k then {h} else {};
  }

  /** A handle that holds nothing comes and goes unnoticed. */
  lemma HoldersJoin(ids: map<Handle, int>, h: Handle, id: int)
    requires h !in ids && id < 0
    ensures forall k :: k >= 0 ==> Holders(ids[h := id], k) == Holders(ids, k)
  {
  }

  class Handle {
    var id: int

    constructor ()
      ensures id == INVALID
    {
      id := INVALID;
    }

    /** The live handles now include this one. */
    ghost method Join(lib: Library)
      requires lib.Valid() && this !in lib.handles && id < 0
      modifies lib`handles
      ensures lib.Valid() && lib.handles == old(lib.handles) + {this}
    {
      HoldersJoin(Ids(lib.handles), this, id);
      ghost var before := Ids(lib.handles);
      lib.handles := lib.handles + {this};
      assert Ids(lib.handles) == before[this := id];
    }

    /** The assignment to the field, and what it does to the number of holders of each id. */
    method Become(lib: Library, given: int)
      requires this in lib.handles
      modifies `id
      ensures id == given
      ensures forall k :: |Holders(Ids(lib.handles), k)|
                          == old(|Holders(Ids(lib.handles), k)|) - One(old(id) == k) + One(given == k)
    {
      HoldersMove(Ids(lib.handles), this, given);
      ghost var before := Ids(lib.handles);
      id := given;
      assert Ids(lib.handles) == before[this := given];
    }

    /** An empty handle starts to share an open id, or stays empty. */
    method Hold(lib: Library, given: int)
      requires lib.Valid() && this in lib.handles && id < 0
      requires lib.IsOpen(given)
      modifies this, lib`refs
      ensures lib.Valid() && id == given
      ensures forall k :: k >= 0 ==> lib.Count(k) == old(lib.Count(k)) + One(k == given)
    {
      Become(lib, given);
      if id >= 0 {
        lib.IncRef(id);
      }
    }

    /**
     Shares the id it is given. An open id gains a reference; a closed one cannot, and then the handle dangles: the
     counts are right afterwards exactly if the id was open.
     */
    method Share(lib: Library, given: int)
      requires lib.Valid() && this !in lib.handles && id < 0
      modifies this, lib`refs, lib`handles
      ensures lib.handles == old(lib.handles) + {this} && id == given
      ensures lib.Valid() <==> old(lib.IsOpen(given))
      ensures forall k :: k >= 0 ==>
                lib.Count(k) == old(lib.Count(k)) + One(k == given && old(lib.IsOpen(given)))
    {
      ghost var open := lib.IsOpen(given);
      Join(lib);
      Become(lib, given);
      if id >= 0 {
        lib.IncRef(id);
      }
      assert !open ==> lib.Count(given) != lib.Outside(given) + |Holders(Ids(lib.handles), given)|;
    }

    /** Takes over the reference the caller owns. */
    method Take(lib: Library, given: int)
      requires lib.Valid() && this !in lib.handles && id < 0
      requires given >= 0 ==> lib.Outside(given) > 0
      modifies this, lib`handles, lib`external
      ensures lib.Valid() && lib.handles == old(lib.handles) + {this} && id == given
      ensures forall k :: k >= 0 ==> lib.Outside(k) == old(lib.Outside(k)) - One(k == given)
    {
      hide Holders;
      Join(lib);
      Become(lib, given);
      lib.external := if id >= 0 then lib.external[id := lib.external[id] - 1] else lib.external;
    }

    method CopyOf(lib: Library, o: Handle)
      requires lib.Valid() && this !in lib.handles && this.id < 0 && o in lib.handles
      modifies this, lib`refs, lib`handles
      ensures lib.Valid() && lib.handles == old(lib.handles) + {this} && id == o.id
      ensures forall k :: k >= 0 ==> lib.Count(k) == old(lib.Count(k)) + One(k == o.id)
    {
      if o.id >= 0 {
        lib.NeverDangles(o);
      }
      Share(lib, o.id);
    }

    method MoveOf(lib: Library, o: Handle)
      requires lib.Valid() && this !in lib.handles && this.id < 0 && o in lib.handles
      modifies this, o, lib`handles
      ensures lib.Valid() && lib.handles == old(lib.handles) + {this} && id == old(o.id) && o.id == INVALID
    {
      Join(lib);
      Become(lib, o.id);
      o.Become(lib, INVALID);
    }

    method Reset(lib: Library)
      requires lib.Valid() && this in lib.handles
      modifies this, lib`refs
      ensures lib.Valid() && id == if old(id) < 0 then old(id) else INVALID
      ensures forall k :: k >= 0 ==> lib.Count(k) == old(lib.Count(k)) - One(k == old(id))
    {
      if id >= 0 {
        lib.NeverDangles(this);
        lib.DecRef(id);
        Become(lib, INVALID);
      }
    }

    /** Copy assignment; nothing is ever closed in between when both hold the same id, not even by itself. */
    method AssignCopy(lib: Library, o: Handle)
      requires lib.Valid() && this in lib.handles && o in lib.handles
      modifies this, lib`refs
      ensures lib.Valid() && id == old(o.id) && o.id == old(o.id)
      ensures forall k :: k >= 0 ==> lib.Count(k) == old(lib.Count(k)) - One(k == old(id)) + One(k == old(o.id))
    {
      if this == o {
        return;
      }
      Reset(lib);
      if o.id >= 0 {
        lib.NeverDangles(o);
      }
      Hold(lib, o.id);
    }

    method AssignMove(lib: Library, o: Handle)
      requires lib.Valid() && this in lib.handles && o in lib.handles
      modifies this, o, lib`refs
      ensures lib.Valid() && id == old(o.id) && (this != o ==> o.id == INVALID)
      ensures forall k :: k >= 0 ==> lib.Count(k) == old(lib.Count(k)) - One(this != o && k == old(id))
    {
      if this == o {
        return;
      }
      Reset(lib);
      Become(lib, o.id);
      o.Become(lib, INVALID);
    }

    /** Hands the reference back to the caller. */
    method Release(lib: Library) returns (t: int)
      requires lib.Valid() && this in lib.handles
      modifies this, lib`external
      ensures lib.Valid() && t == old(id) && id == INVALID
      ensures forall k :: k >= 0 ==> lib.Outside(k) == old(lib.Outside(k)) + One(k == t)
    {
      t := id;
      Become(lib, INVALID);
      lib.external := if t >= 0 then lib.external[t := lib.Outside(t) + 1] else lib.external;
    }

    /** The destructor. */
    method Destroy(lib: Library)
      requires lib.Valid() && this in lib.handles
      modifies this, lib`refs, lib`handles
      ensures lib.Valid() && lib.handles == old(lib.handles) - {this}
      ensures forall k :: k >= 0 ==> lib.Count(k) == old(lib.Count(k)) - One(k == old(id))
    {
      Reset(lib);
      ghost var before := Ids(lib.handles);
      lib.handles := lib.handles - {this};
      HoldersJoin(Ids(lib.handles), this, id);
      assert before == Ids(lib.handles)[this := id];
    }
  }

  // ----- any sequence of operations -----

  /** What a program does with ids and handles; handles are numbered in the order in which they are made. */
  datatype Operation =
    | Open(id: int) | Close(id: int)
    | NewEmpty | NewShared(id: int) | NewTaken(id: int) | NewCopy(from: nat) | NewMoved(from: nat)
    | CopyInto(to: nat, from: nat) | MoveInto(to: nat, from: nat)
    | MakeEmpty(at: nat) | HandBack(at: nat) | End(at: nat)

  /** The id of every live handle, and the references the program itself owns. */
  datatype World = World(held: map<nat, int>, made: nat, owned: map<int, nat>)

  function Owned(w: World, k: int): nat {
    if k in w.owned then w.owned[k] else 0
  }

  ghost function HeldBy(w: World, k: int): set<nat> {
    set i | i in w.held && w.held[i] == k
  }

  /** How often an id should be counted. */
  ghost function References(w: World, k: int): nat {
    Owned(w, k) + |HeldBy(w, k)|
  }

  /** What the program owes: closed ids are not shared, and only references it owns are closed or handed over. */
  ghost predicate Legal(w: World, op: Operation) {
    match op
    case Open(id) => id >= 0 && References(w, id) == 0
    case Close(id) => id >= 0 && Owned(w, id) > 0
    case NewEmpty => true
    case NewShared(id) => id >= 0 ==> References(w, id) > 0
    case NewTaken(id) => id >= 0 ==> Owned(w, id) > 0
    case NewCopy(from) => from in w.held
    case NewMoved(from) => from in w.held
    case CopyInto(to, from) => to in w.held && from in w.held
    case MoveInto(to, from) => to in w.held && from in w.held
    case MakeEmpty(at) => at in w.held
    case HandBack(at) => at in w.held
    case End(at) => at in w.held
  }

  function Joined(w: World, id: int): World {
    w.(held := w.held[w.made := id], made := w.made + 1)
  }

  /** Handle i holds this id. */
  function Given(w: World, i: nat, id: int): (r: World)
    ensures i in w.held ==> r.held.Keys == w.held.Keys
  {
    w.(held := w.held[i := id])
  }

  /** The program owns so many references more; an invalid id has none. */
  function Credited(w: World, id: int, change: int): World
    requires id >= 0 ==> Owned(w, id) + change >= 0
  {
    if id < 0 then w else w.(owned := w.owned[id := Owned(w, id) + change])
  }

  ghost function Apply(w: World, op: Operation): World
    requires Legal(w, op)
  {
    match op
    case Open(id) => Credited(w, id, 1)
    case Close(id) => Credited(w, id, -1)
    case NewEmpty => Joined(w, INVALID)
    case NewShared(id) => Joined(w, id)
    case NewTaken(id) => Joined(Credited(w, id, -1), id)
    case NewCopy(from) => Joined(w, w.held[from])
    case NewMoved(from) => Joined(Given(w, from, INVALID), w.held[from])
    case CopyInto(to, from) => Given(w, to, w.held[from])
    case MoveInto(to, from) => if to == from then w else Given(Given(w, to, w.held[from]), from, INVALID)
    case MakeEmpty(at) => Given(w, at, if w.held[at] < 0 then w.held[at] else INVALID)
    case HandBack(at) => Credited(Given(w, at, INVALID), w.held[at], 1)
    case End(at) => w.(held := w.held - {at})
  }

  ghost predicate AllLegal(w: World, ops: seq<Operation>)
    decreases |ops|
  {
    ops == [] || (Legal(w, ops[0]) && AllLegal(Apply(w, ops[0]), ops[1..]))
  }

  ghost function After(w: World, ops: seq<Operation>): World
    requires AllLegal(w, ops)
    decreases |ops|
  {
    if ops == [] then w else After(Apply(w, ops[0]), ops[1..])
  }

  ghost predicate Numbered(handles: seq<Handle>, w: World) {
    && |handles| == w.made && (forall i :: i in w.held ==> i < w.made)
    && (forall i, j :: 0 <= i < j < |handles| ==> handles[i] != handles[j])
  }

  ghost function Live(handles: seq<Handle>, numbers: set<nat>): set<Handle> {
    set i | i in numbers && i < |handles| :: handles[i]
  }

  /** The library and the handles are as the world says. */
  ghost predicate Stands(lib: Library, handles: seq<Handle>, w: World)
    reads lib, handles
  {
    && Numbered(handles, w)
    && lib.handles == Live(handles, w.held.Keys)
    && (forall i :: i in w.held ==> handles[i].id == w.held[i])
    && (forall k :: k >= 0 ==> lib.Outside(k) == Owned(w, k))
  }

  lemma {:induction false} SameSize(handles: seq<Handle>, numbers: set<nat>, members: set<Handle>)
    requires forall i, j :: 0 <= i < j < |handles| ==> handles[i] != handles[j]
    requires forall i :: i in numbers ==> i < |handles|
    requires members == set i | i in numbers :: handles[i]
    ensures |members| == |numbers|
  {
    if numbers != {} {
      var i :| i in numbers;
      SameSize(handles, numbers - {i}, members - {handles[i]});
    }
  }

  /** Every id is counted as often as it should be. */
  lemma CountsRight(lib: Library, handles: seq<Handle>, w: World, k: int)
    requires lib.Valid() && Stands(lib, handles, w) && k >= 0
    ensures lib.Count(k) == References(w, k)
  {
    SameSize(handles, HeldBy(w, k), Holders(Ids(lib.handles), k));
  }

  lemma LiveJoined(handles: seq<Handle>, w: World, h: Handle, id: int)
    requires Numbered(handles, w) && h !in handles
    ensures Numbered(handles + [h], Joined(w, id))
    ensures Live(handles + [h], Joined(w, id).held.Keys) == Live(handles, w.held.Keys) + {h}
  {
    var now, all := Joined(w, id).held.Keys, handles + [h];
    forall i | i in w.held
      ensures handles[i] in Live(all, now)
    {
      assert i in now && all[i] == handles[i];
    }
    assert w.made in now && all[w.made] == h;
  }

  lemma LiveHas(handles: seq<Handle>, w: World, i: nat)
    requires Numbered(handles, w) && i in w.held
    ensures handles[i] in Live(handles, w.held.Keys)
  {
  }

  lemma LiveWithout(handles: seq<Handle>, w: World, i: nat)
    requires Numbered(handles, w) && i in w.held
    ensures Live(handles, (w.held - {i}).Keys) == Live(handles, w.held.Keys) - {handles[i]}
  {
    var rest := (w.held - {i}).Keys;
    forall j | j in w.held && j != i
      ensures handles[j] in Live(handles, rest) && handles[j] != handles[i]
    {
      assert j in rest;
    }
  }

  // ----- one operation at a time -----

  method OpenOne(lib: Library, handles: seq<Handle>, id: int, ghost w: World)
    requires lib.Valid() && Stands(lib, handles, w) && id >= 0 && References(w, id) == 0
    modifies lib, handles
    ensures lib.Valid() && Stands(lib, handles, Credited(w, id, 1))
  {
    hide Holders, Ids, References, Live;
    CountsRight(lib, handles, w, id);
    lib.Create(id);
  }

  method CloseOne(lib: Library, handles: seq<Handle>, id: int, ghost w: World)
    requires lib.Valid() && Stands(lib, handles, w) && id >= 0 && Owned(w, id) > 0
    modifies lib, handles
    ensures lib.Valid() && Stands(lib, handles, Credited(w, id, -1))
  {
    hide Holders, Ids, References, Live;
    lib.CloseOutside(id);
  }

  method MakeEmptyOne(lib: Library, handles: seq<Handle>, ghost w: World) returns (h: Handle)
    requires lib.Valid() && Stands(lib, handles, w)
    modifies lib, handles
    ensures fresh(h) && lib.Valid() && Stands(lib, handles + [h], Joined(w, INVALID))
  {
    hide Holders, Ids, References, Live;
    h := new Handle();
    LiveJoined(handles, w, h, INVALID);
    h.Join(lib);
  }

  method MakeShared(lib: Library, handles: seq<Handle>, id: int, ghost w: World) returns (h: Handle)
    requires lib.Valid() && Stands(lib, handles, w) && (id >= 0 ==> References(w, id) > 0)
    modifies lib, handles
    ensures fresh(h) && lib.Valid() && Stands(lib, handles + [h], Joined(w, id))
  {
    hide Holders, Ids, References, Live;
    h := new Handle();
    if id >= 0 {
      CountsRight(lib, handles, w, id);
    }
    LiveJoined(handles, w, h, id);
    h.Share(lib, id);
  }

  method MakeTaken(lib: Library, handles: seq<Handle>, id: int, ghost w: World) returns (h: Handle)
    requires lib.Valid() && Stands(lib, handles, w) && (id >= 0 ==> Owned(w, id) > 0)
    modifies lib, handles
    ensures fresh(h) && lib.Valid() && Stands(lib, handles + [h], Joined(Credited(w, id, -1), id))
  {
    hide Holders, Ids, References, Live;
    h := new Handle();
    LiveJoined(handles, Credited(w, id, -1), h, id);
    h.Take(lib, id);
  }

  method MakeCopy(lib: Library, handles: seq<Handle>, from: nat, ghost w: World) returns (h: Handle)
    requires lib.Valid() && Stands(lib, handles, w) && from in w.held
    modifies lib, handles
    ensures fresh(h) && lib.Valid() && Stands(lib, handles + [h], Joined(w, w.held[from]))
  {
    hide Holders, Ids, References, Live;
    h := new Handle();
    LiveHas(handles, w, from);
    LiveJoined(handles, w, h, w.held[from]);
    h.CopyOf(lib, handles[from]);
  }

  method MakeMoved(lib: Library, handles: seq<Handle>, from: nat, ghost w: World) returns (h: Handle)
    requires lib.Valid() && Stands(lib, handles, w) && from in w.held
    modifies lib, handles
    ensures fresh(h) && lib.Valid() && Stands(lib, handles + [h], Joined(Given(w, from, INVALID), w.held[from]))
  {
    hide Holders, Ids, References, Live;
    h := new Handle();
    LiveHas(handles, w, from);
    LiveJoined(handles, Given(w, from, INVALID), h, w.held[from]);
    h.MoveOf(lib, handles[from]);
  }

  method CopyBetween(lib: Library, handles: seq<Handle>, to: nat, from: nat, ghost w: World)
    requires lib.Valid() && Stands(lib, handles, w) && to in w.held && from in w.held
    modifies lib, handles
    ensures lib.Valid() && Stands(lib, handles, Given(w, to, w.held[from]))
  {
    hide Holders, Ids, References, Live;
    LiveHas(handles, w, to);
    LiveHas(handles, w, from);
    handles[to].AssignCopy(lib, handles[from]);
  }

  method MoveBetween(lib: Library, handles: seq<Handle>, to: nat, from: nat, ghost w: World)
    requires lib.Valid() && Stands(lib, handles, w) && to in w.held && from in w.held && to != from
    modifies lib, handles
    ensures lib.Valid() && Stands(lib, handles, Given(Given(w, to, w.held[from]), from, INVALID))
  {
    hide Holders, Ids, References, Live;
    LiveHas(handles, w, to);
    LiveHas(handles, w, from);
    handles[to].AssignMove(lib, handles[from]);
  }

  method ResetOne(lib: Library, handles: seq<Handle>, at: nat, ghost w: World)
    requires lib.Valid() && Stands(lib, handles, w) && at in w.held
    modifies lib, handles
    ensures lib.Valid() && Stands(lib, handles, Given(w, at, if w.held[at] < 0 then w.held[at] else INVALID))
  {
    hide Holders, Ids, References, Live;
    LiveHas(handles, w, at);
    handles[at].Reset(lib);
  }

  method ReleaseOne(lib: Library, handles: seq<Handle>, at: nat, ghost w: World)
    requires lib.Valid() && Stands(lib, handles, w) && at in w.held
    modifies lib, handles
    ensures lib.Valid() && Stands(lib, handles, Credited(Given(w, at, INVALID), w.held[at], 1))
  {
    hide Holders, Ids, References, Live;
    LiveHas(handles, w, at);
    var id := handles[at].Release(lib);
  }

  method DestroyOne(lib: Library, handles: seq<Handle>, at: nat, ghost w: World)
    requires lib.Valid() && Stands(lib, handles, w) && at in w.held
    modifies lib, handles
    ensures lib.Valid() && Stands(lib, handles, w.(held := w.held - {at}))
  {
    hide Holders, Ids, References, Live;
    LiveHas(handles, w, at);
    LiveWithout(handles, w, at);
    handles[at].Destroy(lib);
  }

  method Do(lib: Library, handles: seq<Handle>, op: Operation, ghost w: World) returns (now: seq<Handle>)
    requires lib.Valid() && Stands(lib, handles, w) && Legal(w, op)
    modifies lib, handles
    ensures lib.Valid() && Stands(lib, now, Apply(w, op))
    ensures handles <= now && forall i :: |handles| <= i < |now| ==> fresh(now[i])
  {
    hide Holders, Ids, References, Stands, Joined, Given, Credited;
    now := handles;
    match op {
      case Open(id) => OpenOne(lib, handles, id, w);
      case Close(id) => CloseOne(lib, handles, id, w);
      case NewEmpty => var h := MakeEmptyOne(lib, handles, w); now := handles + [h];
      case NewShared(id) => var h := MakeShared(lib, handles, id, w); now := handles + [h];
      case NewTaken(id) => var h := MakeTaken(lib, handles, id, w); now := handles + [h];
      case NewCopy(from) => var h := MakeCopy(lib, handles, from, w); now := handles + [h];
      case NewMoved(from) => var h := MakeMoved(lib, handles, from, w); now := handles + [h];
      case CopyInto(to, from) => CopyBetween(lib, handles, to, from, w);
      case MoveInto(to, from) =>
        if to != from {
          MoveBetween(lib, handles, to, from, w);
        }
      case MakeEmpty(at) => ResetOne(lib, handles, at, w);
      case HandBack(at) => ReleaseOne(lib, handles, at, w);
      case End(at) => DestroyOne(lib, handles, at, w);
    }
  }

  /**
   After any legal sequence of operations every id is counted once for each live handle that holds it and once for each
   reference the program owns. So an id is open while anything holds it, and closed once nothing does.
   */
  method Execute(ops: seq<Operation>) returns (lib: Library, handles: seq<Handle>)
    requires AllLegal(World(map[], 0, map[]), ops)
    ensures fresh(lib) && lib.Valid() && Stands(lib, handles, After(World(map[], 0, map[]), ops))
    ensures forall k :: k >= 0 ==> lib.Count(k) == References(After(World(map[], 0, map[]), ops), k)
  {
    lib := new Library();
    handles := [];
    ghost var w := World(map[], 0, map[]);
    for i := 0 to |ops|
      invariant fresh(lib) && lib.Valid() && Stands(lib, handles, w)
      invariant forall n :: 0 <= n < |handles| ==> fresh(handles[n])
      invariant AllLegal(w, ops[i..]) && After(w, ops[i..]) == After(World(map[], 0, map[]), ops)
    {
      assert ops[i..][0] == ops[i] && ops[i..][1..] == ops[i + 1..];
      handles := Do(lib, handles, ops[i], w);
      w := Apply(w, ops[i]);
    }
    forall k | k >= 0
      ensures lib.Count(k) == References(w, k)
    {
      CountsRight(lib, handles, w, k);
    }
  }
}
