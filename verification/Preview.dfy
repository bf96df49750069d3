/** A preview request: one process slot, one process whose output goes to the client and to a cache partial, and a
    commit only of what the client received in full. */
module Preview {
  import opened Prelude
  import Cache = PreviewCache

  type Bytes = seq<int>

  // --------------------------------------------------------------- process slots

  /** The release function handed out with a slot works once. */
  class Slot {
    var released: bool

    constructor ()
      ensures !released
    {
      released := false;
    }
  }

  class Limits {
    var global: nat
    var active: nat
    ghost var outstanding: set<Slot>

    /** active counts the slots that were handed out and not given back. */
    ghost predicate Valid()
      reads this, outstanding
    {
      global >= 1 && active == |outstanding| && forall s <- outstanding :: !s.released
    }

    constructor (global: nat)
      requires global >= 1
      ensures Valid() && this.global == global && outstanding == {}
    {
      this.global, active, outstanding := global, 0, {};
    }

    method SetLimits(n: int) returns (ok: bool)
      requires Valid()
      modifies this`global
      ensures Valid() && (ok <==> n >= 1) && global == if ok then n else old(global)
    {
      ok := n >= 1;
      if ok {
        global := n;
      }
    }

    /** One attempt of the waiting acquire; a slot is given only below the limit then in force. */
    method Acquire() returns (slot: Slot?)
      requires Valid()
      modifies this`active, this`outstanding
      ensures Valid() && (slot != null <==> old(active) < global)
      ensures slot != null ==> fresh(slot) && !slot.released && outstanding == old(outstanding) + {slot} && active == old(active) + 1 <= global
      ensures slot == null ==> outstanding == old(outstanding)
    {
      if active >= global {
        return null;
      }
      slot := new Slot();
      active := active + 1;
      outstanding := outstanding + {slot};
    }

    /** Giving a slot back a second time changes nothing. */
    method Release(slot: Slot)
      requires Valid() && (slot.released || slot in outstanding)
      modifies this`active, this`outstanding, slot
      ensures Valid() && slot.released && outstanding == old(outstanding) - {slot}
      ensures active == if old(slot.released) then old(active) else old(active) - 1
    {
      if !slot.released {
        active := active - 1;
        outstanding := outstanding - {slot};
        slot.released := true;
      }
    }
  }

  // ------------------------------------------------------------------- the stream

  datatype ReadEnd = More | EndOfFile | ReadFailed

  /** One turn of the loop: what the process read gave, and whether each sink takes the chunk.  A sink that fails
      takes only the first part of it. */
  datatype Turn = Turn(chunk: Bytes, end: ReadEnd, cacheTakes: bool, clientTakes: bool, part: nat)

  function Part(t: Turn): Bytes {
    if t.part <= |t.chunk| then t.chunk[..t.part] else t.chunk
  }

  /** What the partial and the client get of one chunk: the client nothing unless the partial took it all. */
  function Kept(t: Turn): Bytes {
    if t.cacheTakes then t.chunk else Part(t)
  }

  function Delivered(t: Turn): Bytes {
    if !t.cacheTakes then [] else if t.clientTakes then t.chunk else Part(t)
  }

  predicate Failing(t: Turn) {
    (t.chunk != [] && (!t.cacheTakes || !t.clientTakes)) || t.end == ReadFailed
  }

  predicate Last(t: Turn) {
    t.end != More || Failing(t)
  }

  function FirstLast(turns: seq<Turn>): (n: nat)
    requires exists i :: 0 <= i < |turns| && Last(turns[i])
    ensures n < |turns| && Last(turns[n]) && forall i :: 0 <= i < n ==> !Last(turns[i])
  {
    if Last(turns[0]) then 0
    else
      assert exists i :: 0 <= i < |turns[1..]| && Last(turns[1..][i]) by {
        var i :| 0 <= i < |turns| && Last(turns[i]);
        assert turns[1..][i - 1] == turns[i];
      }
      1 + FirstLast(turns[1..])
  }

  function Output(turns: seq<Turn>): Bytes {
    if turns == [] then [] else Output(turns[..|turns| - 1]) + turns[|turns| - 1].chunk
  }

  /** Everything worked: the process ended its output by itself, every chunk reached both sinks, it exited cleanly,
      and the request was not cancelled. */
  ghost predicate Clean(turns: seq<Turn>, waitOk: bool, cancelled: bool)
    requires exists i :: 0 <= i < |turns| && Last(turns[i])
  {
    !Failing(turns[FirstLast(turns)]) && waitOk && !cancelled
  }

  datatype StreamEnd = Committed(r: Cache.CommitResult) | Discarded

  lemma OutputStep(turns: seq<Turn>, i: nat)
    requires i < |turns|
    ensures Output(turns[..i + 1]) == Output(turns[..i]) + turns[i].chunk
  {
    assert turns[..i + 1][..i] == turns[..i];
  }

  /** The read loop: every chunk goes to the cache partial first and then to the client, until the output ends or
      something fails. */
  method Tee(turns: seq<Turn>, store: Cache.Store, h: nat) returns (client: Bytes, streamErr: bool)
    requires store.Valid() && h in store.partials && !store.partials[h].finished
    requires store.partials[h].inode in store.bytes && store.bytes[store.partials[h].inode] == []
    requires exists i :: 0 <= i < |turns| && Last(turns[i])
    modifies store`bytes
    ensures store.Valid() && store.partials[h].inode in store.bytes
    ensures streamErr <==> Failing(turns[FirstLast(turns)])
    ensures !streamErr ==> client == store.bytes[store.partials[h].inode] == Output(turns[..FirstLast(turns) + 1])
    ensures client == Output(turns[..FirstLast(turns)]) + Delivered(turns[FirstLast(turns)])
    ensures store.bytes[store.partials[h].inode] == Output(turns[..FirstLast(turns)]) + Kept(turns[FirstLast(turns)])
  {
    hide Cache.FilesOk, Cache.ReadersOk, Cache.LeasesOk, Cache.PartialsOk, Cache.Below, Output;
    ghost var n := FirstLast(turns);
    var inode := store.partials[h].inode;
    client, streamErr := [], false;
    var i := 0;
    NoOutput(turns[..0]);
    while !streamErr
      invariant 0 <= i <= n
      invariant store.Valid() && inode in store.bytes
      invariant !streamErr ==> client == Output(turns[..i]) == store.bytes[inode]
      invariant streamErr ==> i == n && Failing(turns[n]) && client == Output(turns[..n]) + Delivered(turns[n]) && store.bytes[inode] == Output(turns[..n]) + Kept(turns[n])
      decreases n - i, !streamErr
    {
      var t := turns[i];
      OutputStep(turns, i);
      if t.chunk != [] {
        var accepted := store.Write(h, if t.cacheTakes then t.chunk else Part(t));
        streamErr := !t.cacheTakes;
        if !streamErr {
          client := client + if t.clientTakes then t.chunk else Part(t);
          streamErr := !t.clientTakes;
        }
      }
      if t.end == ReadFailed {
        streamErr := true;
      }
      if streamErr || t.end != More {
        break;
      }
      i := i + 1;
    }
  }

  lemma NoOutput(turns: seq<Turn>)
    requires turns == []
    ensures Output(turns) == []
  {}

  /** Runs in its own goroutine, owning the slot and the partial: only a clean stream is committed, and then the
      partial holds exactly the whole output, all of which the client got; the slot goes back on every path. */
  method StreamPreview(turns: seq<Turn>, waitOk: bool, cancelled: bool, verdict: Cache.Verdict, lateCancel: bool, intact: bool, modified: int,
                       store: Cache.Store, h: nat, limits: Limits, slot: Slot)
    returns (client: Bytes, end: StreamEnd)
    requires store.Valid() && h in store.partials && !store.partials[h].finished
    requires store.partials[h].inode in store.bytes && store.bytes[store.partials[h].inode] == []
    requires limits.Valid() && slot in limits.outstanding
    requires exists i :: 0 <= i < |turns| && Last(turns[i])
    modifies store`bytes, store`files, store`partials, store`left, store`accepted, limits`active, limits`outstanding, slot
    ensures store.Valid() && h in store.partials && store.partials[h].finished
    ensures limits.Valid() && limits.outstanding == old(limits.outstanding) - {slot} && limits.active == old(limits.active) - 1 && slot.released
    ensures end.Committed? <==> Clean(turns, waitOk, cancelled)
    ensures end.Committed? ==> store.partials[h].inode in store.bytes && store.bytes[store.partials[h].inode] == client == Output(turns[..FirstLast(turns) + 1])
    ensures end.Discarded? ==> store.files == old(store.files) && store.accepted == old(store.accepted)
    ensures end.Committed? ==> (end.r.Refused? <==> !verdict.Accepts? || lateCancel || !intact)
    ensures end == Committed(Cache.Refused) ==> store.files == old(store.files) && store.accepted == old(store.accepted)
    ensures end.Committed? && !end.r.Refused? ==>
              var path, mine := store.partials[h].path, Cache.File(store.partials[h].inode, |client|, modified);
              && Cache.PublishOutcome(old(store.files), path, mine, store.open, store.max, store.files, end.r)
              && store.accepted == if path in old(store.files) then old(store.accepted) else old(store.accepted) + {(path, client)}
    ensures client == Output(turns[..FirstLast(turns)]) + Delivered(turns[FirstLast(turns)])
  {
    hide Cache.FilesOk, Cache.ReadersOk, Cache.LeasesOk, Cache.PartialsOk, Cache.Below, Cache.PublishOutcome, Output, Failing;
    var streamErr;
    client, streamErr := Tee(turns, store, h);
    if !waitOk {
      streamErr := true;
    }
    if !streamErr && !cancelled {
      var r := store.Commit(h, verdict, lateCancel, intact, modified);
      end := Committed(r);
    } else {
      store.Discard(h);
      end := Discarded;
    }
    limits.Release(slot);
  }

  // ------------------------------------------------------------------ the request

  datatype Outcome = Hit(reader: nat) | Streaming(h: nat) | Failed

  /** Open the cache; on a miss take a slot, begin a partial and start the process.  Every error path gives the slot
      back; success hands it to the stream. */
  method Request(path: Cache.Path, found: Cache.Verdict, cancelledOpen: bool, now: int, startOk: bool, store: Cache.Store, limits: Limits)
    returns (o: Outcome, slot: Slot?)
    requires store.Valid() && limits.Valid()
    modifies store, limits`active, limits`outstanding
    ensures store.Valid() && limits.Valid()
    ensures o.Streaming? <==> slot != null
    ensures var cached := path in old(store.files) && old(store.files)[path].size > 0;
      && (o.Hit? <==> cached && found.Accepts? && !cancelledOpen)
      && (o.Streaming? <==> (!cached || found.Rejects?) && old(limits.active) < limits.global && startOk)
    ensures o.Streaming? ==> fresh(slot) && limits.outstanding == old(limits.outstanding) + {slot} && limits.active <= limits.global
    ensures !o.Streaming? ==> limits.outstanding == old(limits.outstanding) && limits.active == old(limits.active)
    ensures o.Streaming? ==> o.h in store.partials && !store.partials[o.h].finished && store.partials[o.h].path == path
                             && store.partials[o.h].inode in store.bytes && store.bytes[store.partials[o.h].inode] == []
    ensures o.Hit? ==> o.reader in store.readers && store.readers[o.reader].path == path
                       && store.readers[o.reader].inode in store.bytes && (path, store.bytes[store.readers[o.reader].inode]) in store.accepted
  {
    hide Cache.FilesOk, Cache.LeasesOk, Cache.PartialsOk, Cache.Below;
    slot := null;
    var checked := store.OpenCheck(path, found);
    match checked {
      case OpenError => return Failed, null;
      case Candidate(inode) =>
        var reader := store.OpenLease(path, inode, cancelledOpen, now);
        if reader.Some? {
          return Hit(reader.value), null;
        }
        if cancelledOpen {
          return Failed, null;
        }
      case Miss =>
    }
    slot := limits.Acquire();
    if slot == null {
      return Failed, null;
    }
    var h := store.Begin(path);
    if !startOk {
      store.Discard(h);
      limits.Release(slot);
      return Failed, null;
    }
    o := Streaming(h);
  }
}
