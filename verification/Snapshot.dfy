/** The verified download of a snapshot with its persistent part cache
    (src/sandbox_snapshot.ts, fetchVerifiedSnapshot). Any number of visits, in any number of
    tabs, share one cache; what one does between two `await`s is one method here, and
    `Interleave` runs any schedule of them. */
module Snapshot {
  import opened Basics
  import opened ImageParts

  /** A SHA-256, taken as injective: it is what it is the digest of. */
  datatype Digest = Digest(of: Bytes)

  /** The file a page expects: its sha256 and its size. */
  datatype Pin = Pin(sha: Digest, size: nat)

  datatype Key = Part(sha: Digest, partBytes: nat, at: nat) | Marker(sha: Digest)

  /** A cached part, and the visit that put it, or -1 when nobody here did. */
  datatype Entry = Entry(bytes: Bytes, owner: int)

  const SNAPSHOT_PARTS_IN_FLIGHT := 3

  // ---- what a marker says ----

  ghost predicate Cuts(digests: seq<Digest>, file: Bytes, partBytes: nat) {
    && partBytes > 0
    && |digests| == CountOf(|file|, partBytes)
    && forall at: nat :: at < |digests| ==> digests[at] == Digest(Slice(file, partBytes, at))
  }

  /** The digests are those of the slices, in some layout, of the file with digest `sha`. */
  ghost predicate Verifies(digests: seq<Digest>, sha: Digest) {
    exists partBytes: nat :: Cuts(digests, sha.of, partBytes)
  }

  /** Bytes of the right length whose digest a marker with as many parts holds are the
      file's slice in the visit's own layout, although the marker does not name its own. */
  lemma AcceptedIsSlice(digests: seq<Digest>, sha: Digest, partBytes: nat, at: nat, bytes: Bytes)
    requires Verifies(digests, sha) && partBytes > 0
    requires at < |digests| == CountOf(|sha.of|, partBytes)
    requires |bytes| == PartLength(|sha.of|, partBytes, at) && Digest(bytes) == digests[at]
    ensures bytes == Slice(sha.of, partBytes, at)
  {
    var other: nat :| Cuts(digests, sha.of, other);
    Lengths(|sha.of|, partBytes, at);
    Lengths(|sha.of|, other, at);
    hide CountOf;
    SliceLength(sha.of, other, at);
    SameLayout(sha.of, partBytes, other, at);
  }

  lemma SliceLength(file: Bytes, partBytes: nat, at: nat)
    requires at * partBytes <= |file|
    ensures |Slice(file, partBytes, at)| == PartLength(|file|, partBytes, at)
  {
  }

  /** The digests of parts that have the layout's lengths and join to the file are a marker. */
  lemma PartsVerify(parts: seq<Bytes>, digests: seq<Digest>, partBytes: nat, sha: Digest)
    requires partBytes > 0 && Digest(Join(parts)) == sha
    requires |parts| == |digests| == CountOf(|Join(parts)|, partBytes)
    requires forall at: nat :: at < |parts| ==>
               |parts[at]| == PartLength(|Join(parts)|, partBytes, at) && digests[at] == Digest(parts[at])
    ensures Cuts(digests, sha.of, partBytes)
  {
    hide CountOf, PartLength, Join, Slice;
    forall at: nat | at < |digests| ensures digests[at] == Digest(Slice(sha.of, partBytes, at)) {
      JoinedParts(parts, partBytes, at);
    }
  }

  // ---- the shared cache ----

  class Cache {
    var parts: map<Key, Entry>
    var markers: map<Digest, seq<Digest>>

    /** Every marker verifies; a part may be anything. */
    ghost predicate Valid()
      reads this
    {
      forall sha :: sha in markers ==> Verifies(markers[sha], sha)
    }

    function Keys(): (keys: set<Key>)
      reads this
    {
      parts.Keys + set sha | sha in markers :: Marker(sha)
    }

    constructor ()
      ensures Valid() && parts == map[] && markers == map[]
    {
      parts, markers := map[], map[];
    }

    method Delete(key: Key)
      requires Valid()
      modifies this
      ensures Valid() && key !in Keys()
      ensures parts == old(parts) - {key}
      ensures markers == if key.Marker? then old(markers) - {key.sha} else old(markers)
    {
      parts := parts - {key};
      if key.Marker? {
        markers := markers - {key.sha};
      }
    }

    /** What anyone else may do at a part's key, or lose at any. */
    method Disturb(key: Key, junk: Option<Bytes>)
      requires Valid()
      modifies this
      ensures Valid()
      ensures KeepsOthers(parts, old(parts), -1)
    {
      if junk.Some? && key.Part? {
        parts := parts[key := Entry(junk.value, -1)];
      } else {
        Delete(key);
      }
    }
  }

  /** Every entry of a visit other than `id` was there before. */
  ghost predicate KeepsOthers(now: map<Key, Entry>, was: map<Key, Entry>, id: int) {
    forall k :: k in now && now[k].owner != id ==> k in was && was[k] == now[k]
  }

  // ---- one visit ----

  /** How far part `at`'s promise is; each is what the next step of it finds. */
  datatype Phase =
    | Asked
    | Found(bytes: Bytes)
    | Fetching
    | Fetched(bytes: Bytes)
    | Putting(bytes: Bytes)
    | Kept(bytes: Bytes)
    | Deleting(bytes: Bytes)
    | Had(bytes: Bytes, cached: bool)
    | Lost

  /** A pass over the cache's keys. */
  datatype Sweep = Idle | Listing | Dropping(todo: set<Key>)

  /** How the stream stands. Marking and Clearing follow a passed hash, Rejecting a failed
      one, Failing a part that could not be had. */
  datatype Ending = Streaming | Marking | Clearing | Rejecting | Failing | Closed | Errored

  /** The layout a manifest gives, when the page takes it. */
  predicate Layout(pin: Pin, size: int, partBytes: int, names: nat) {
    size == pin.size && 0 < partBytes <= IMAGE_PART_BYTES && names == CountOf(pin.size, partBytes)
  }

  /** What may happen next in a visit: one of its `await`s ends, or its reader asks. */
  datatype Move =
    | MatchEnds(at: nat, fails: bool)
    | HashEnds(at: nat)
    | Answers(at: nat, body: Option<Bytes>)
    | PutLands(at: nat, fails: bool)
    | PutEnds(at: nat)
    | DeleteEnds(at: nat, fails: bool)
    | Pulls
    | AwaitEnds
    | MarkerEnds(fails: bool)
    | Cancels
    | Lists(cancel: bool, fails: bool)
    | Drops(cancel: bool, key: Key, fails: bool)
    | Swept(cancel: bool)

  /** A look into the cache that fails. */
  predicate Misses(move: Move) {
    move.MatchEnds? && move.fails
  }

  class Visit {
    const id: nat
    const pin: Pin
    const partBytes: nat
    const count: nat
    /** Whether the cache could be opened. */
    const store: bool
    const verified: Option<seq<Digest>>

    var phases: map<nat, Phase>
    var digests: map<nat, Digest>
    var requests: seq<nat>
    var putHere: set<Key>
    var stopped: bool
    /** A delete or a listing of this visit failed. */
    var failed: bool

    var asked: nat
    var pending: seq<nat>
    var awaited: Option<nat>
    /** The parts hashed, and what the stream's reader was handed. */
    var taken: seq<Bytes>
    var delivered: Bytes
    var cancelled: bool
    var ending: Ending
    var pullSweep: Sweep
    var cancelSweep: Sweep
    /** Whether every body this visit accepted was the pinned file's part. */
    ghost var honest: bool
    /** Whether no put and no marker of this visit failed. */
    ghost var clean: bool

    function KeyOf(at: nat): Key {
      Part(pin.sha, partBytes, at)
    }

    ghost predicate LayoutValid() {
      && 0 < partBytes <= IMAGE_PART_BYTES && count == CountOf(pin.size, partBytes)
      && (verified.Some? ==> |verified.value| == count && Verifies(verified.value, pin.sha))
    }

    /** What phase of part `at` is consistent with what the visit noted of it. */
    ghost predicate PhaseValid(at: nat, phase: Phase)
      reads this`digests, this`requests, this`putHere
    {
      && (phase.Asked? || phase.Found? || (phase.Had? && phase.cached) <==> at !in requests)
      && (phase.Found? || phase.Fetched? || phase.Putting? || phase.Kept? || phase.Deleting? || phase.Had? ==>
            |phase.bytes| == PartLength(pin.size, partBytes, at))
      && (phase.Found? ==> verified.Some?)
      && (phase.Putting? || phase.Kept? || phase.Deleting? || phase.Had? ==>
            at in digests && digests[at] == Digest(phase.bytes))
      && (phase.Putting? || phase.Kept? || phase.Deleting? ==> store && KeyOf(at) in putHere)
      && (phase.Had? && phase.cached ==> verified.Some? && at < |verified.value| && digests[at] == verified.value[at])
    }

    ghost predicate PartsValid()
      reads this`phases, this`digests, this`requests, this`putHere, this`asked
    {
      && asked <= count
      && (forall at: nat :: at in phases <==> at < asked)
      && (forall at: nat :: at in phases ==> PhaseValid(at, phases[at]))
      && (forall i, j :: 0 <= i < j < |requests| ==> requests[i] != requests[j])
      && (forall at: nat :: at in requests ==> at < asked)
      && (forall k :: k in putHere ==> k.Part? && k == KeyOf(k.at))
    }

    /** The parts handed on are the first ones, in order; the one awaited is next, and the
        ones pending after it; never more than three between them. */
    ghost predicate StreamValid()
      reads this`phases, this`asked, this`pending, this`awaited, this`taken, this`delivered, this`cancelled
    {
      var ahead := if awaited.Some? then 1 else 0;
      && |taken| + ahead + |pending| == asked
      && |pending| + ahead <= SNAPSHOT_PARTS_IN_FLIGHT
      && (awaited.Some? ==> awaited.value == |taken|)
      && (forall i :: 0 <= i < |pending| ==> pending[i] == |taken| + ahead + i)
      && (forall at: nat :: at < |taken| ==> at in phases && phases[at].Had? && phases[at].bytes == taken[at])
      && (if cancelled then delivered <= Join(taken) else delivered == Join(taken))
    }

    /** Once the hash has passed, what was hashed is the pinned file. */
    ghost predicate EndingValid()
      reads this`taken, this`pending, this`awaited, this`ending, this`cancelled, this`stopped, this`asked, this`pullSweep
    {
      && (ending.Marking? || ending.Clearing? || ending.Closed? ==>
            |taken| == count && Digest(Join(taken)) == pin.sha && |Join(taken)| == pin.size)
      && (ending.Closed? ==> !cancelled)
      && (awaited.None? && pending == [] && ending.Streaming? ==> asked == count)
      && (cancelled || ending.Rejecting? || ending.Failing? || ending.Errored? <==> stopped)
      && (!ending.Streaming? && !ending.Failing? && !ending.Errored? ==> awaited.None?)
      && (ending.Clearing? || ending.Rejecting? || ending.Failing? <==> !pullSweep.Idle?)
    }

    ghost predicate Valid()
      reads this
    {
      LayoutValid() && PartsValid() && StreamValid() && EndingValid()
    }

    /** Anything in the cache that this visit put is noted as put here; and once the visit
        stopped, is still to be met by one of its sweeps or deleted by its part. */
    ghost predicate TidyIn(cache: Cache)
      reads this, cache
    {
      forall k :: k in cache.parts && cache.parts[k].owner == id ==>
        store && k in putHere && (stopped && !failed ==> Covered(k))
    }

    ghost predicate Covered(k: Key)
      reads this`phases, this`pullSweep, this`cancelSweep, this`ending
    {
      || (Meets(pullSweep, k) && !ending.Clearing?)
      || Meets(cancelSweep, k)
      || (k.Part? && k == KeyOf(k.at) && k.at in phases && (phases[k.at].Kept? || phases[k.at].Deleting?))
    }

    static predicate Meets(sweep: Sweep, k: Key) {
      sweep.Listing? || (sweep.Dropping? && k in sweep.todo)
    }

    /** Nothing of the visit is under way. */
    predicate Settled()
      reads this
    {
      && pullSweep.Idle? && cancelSweep.Idle?
      && forall at :: at in phases ==> phases[at].Had? || phases[at].Lost?
    }

    constructor (id: nat, pin: Pin, partBytes: nat, store: bool, marker: Option<seq<Digest>>)
      requires 0 < partBytes <= IMAGE_PART_BYTES
      requires marker.Some? ==> Verifies(marker.value, pin.sha)
      ensures Valid()
      ensures this.id == id && this.pin == pin && this.partBytes == partBytes && this.store == store
      ensures !stopped && putHere == {} && delivered == [] && requests == []
      ensures honest && clean && ending.Streaming? && cancelSweep.Idle? && !cancelled && awaited.None?
      ensures forall at :: at in phases ==> phases[at].Asked?
      ensures count == CountOf(pin.size, partBytes)
      ensures verified == if store && marker.Some? && |marker.value| == count then marker else None
    {
      this.id, this.pin, this.partBytes, this.store := id, pin, partBytes, store;
      count := CountOf(pin.size, partBytes);
      verified := if store && marker.Some? && |marker.value| == CountOf(pin.size, partBytes) then marker else None;
      phases, digests, requests, putHere, stopped, failed := map[], map[], [], {}, false, false;
      asked, pending, awaited, taken, delivered := 0, [], None, [], [];
      cancelled, ending, pullSweep, cancelSweep := false, Streaming, Idle, Idle;
      honest, clean := true, true;
      new;
      AskMore();
    }

    /** Part `asked`'s promise begins. */
    method AskOne()
      requires asked < count && awaited.None? && |pending| < SNAPSHOT_PARTS_IN_FLIGHT
      requires PartsValid() && StreamValid()
      modifies this`phases, this`asked, this`pending
      ensures PartsValid() && StreamValid()
      ensures asked == old(asked) + 1 && pending == old(pending) + [old(asked)]
      ensures phases == old(phases)[old(asked) := Phase.Asked]
    {
      hide Join, CountOf, PartLength;
      phases := phases[asked := Phase.Asked];
      pending := pending + [asked];
      asked := asked + 1;
    }

    method AskMore()
      requires awaited.None? && |pending| <= SNAPSHOT_PARTS_IN_FLIGHT && PartsValid() && StreamValid()
      modifies this`phases, this`asked, this`pending
      ensures PartsValid() && StreamValid()
      ensures asked == count || |pending| == 3
      ensures forall at :: at in old(phases) ==> at in phases && phases[at] == old(phases[at])
      ensures forall at :: at in phases ==> at in old(phases) || phases[at].Asked?
    {
      hide PhaseValid, StreamValid;
      ghost var was := phases;
      while asked < count && |pending| < SNAPSHOT_PARTS_IN_FLIGHT
        invariant PartsValid() && StreamValid() && |pending| <= SNAPSHOT_PARTS_IN_FLIGHT
        invariant forall at :: at in was ==> at in phases && phases[at] == was[at]
        invariant forall at :: at in phases ==> at in was || phases[at].Asked?
      {
        AskOne();
      }
    }

    // ---- the steps of part `at` ----

    method Advance(at: nat, phase: Phase)
      requires Valid() && at in phases && !phases[at].Had? && PhaseValid(at, phase)
      modifies this`phases
      ensures Valid() && phases == old(phases)[at := phase]
    {
      hide PhaseValid, Join, CountOf, PartLength, LayoutValid, Verifies, EndingValid;
      phases := phases[at := phase];
    }

    /** Part `at` is asked of the site, which it is at most once. */
    method Fetch(at: nat)
      requires Valid() && at in phases && (phases[at].Asked? || phases[at].Found?)
      modifies this`phases, this`requests
      ensures Valid() && phases == old(phases)[at := Fetching] && requests == old(requests) + [at]
    {
      hide Join, CountOf, PartLength, LayoutValid, Verifies, EndingValid;
      requests := requests + [at];
      phases := phases[at := Fetching];
    }

    /** What the cache offers for part `at`: bytes of its length, on a verified visit. */
    function Offered(at: nat, cache: Cache, fails: bool): Option<Bytes>
      reads cache
    {
      if verified.None? || fails || KeyOf(at) !in cache.parts || |cache.parts[KeyOf(at)].bytes| != PartLength(pin.size, partBytes, at)
      then None
      else Some(cache.parts[KeyOf(at)].bytes)
    }

    method Match(at: nat, cache: Cache, fails: bool)
      requires Valid() && TidyIn(cache) && at in phases && phases[at].Asked?
      modifies this`phases, this`requests
      ensures Valid() && TidyIn(cache)
      ensures phases == old(phases)[at := if Offered(at, cache, fails).Some? then Found(Offered(at, cache, fails).value) else Fetching]
      ensures requests == if Offered(at, cache, fails).Some? then old(requests) else old(requests) + [at]
    {
      hide PartsValid, StreamValid, EndingValid, LayoutValid;
      if Offered(at, cache, fails).Some? {
        Matching(at, Offered(at, cache, fails).value);
        Advance(at, Found(Offered(at, cache, fails).value));
      } else {
        Fetch(at);
      }
    }

    lemma Matching(at: nat, bytes: Bytes)
      requires PartsValid() && at in phases && phases[at].Asked?
      requires |bytes| == PartLength(pin.size, partBytes, at) && verified.Some?
      ensures PhaseValid(at, Found(bytes))
    {
    }

    /** The digest of a cached part is there: taken only when it is the marker's. */
    method HashFound(at: nat, cache: Cache)
      requires Valid() && TidyIn(cache) && at in phases && phases[at].Found?
      modifies this`phases, this`digests, this`requests
      ensures Valid() && TidyIn(cache)
      ensures var bytes := old(phases[at]).bytes;
              && phases == old(phases)[at := if Digest(bytes) == old(Expected(at)) then Had(bytes, true) else Fetching]
              && requests == if Digest(bytes) == old(Expected(at)) then old(requests) else old(requests) + [at]
    {
      hide StreamValid, EndingValid, Verifies;
      var bytes := phases[at].bytes;
      if Digest(bytes) == Expected(at) {
        Note(at, Digest(bytes));
        Advance(at, Had(bytes, true));
      } else {
        Fetch(at);
      }
    }

    /** The digest a verified visit had of part `at`. */
    function Expected(at: nat): Digest
      reads this
      requires Valid() && at in phases && phases[at].Found?
    {
      verified.value[at]
    }

    method Note(at: nat, digest: Digest)
      requires Valid() && at in phases && (phases[at].Found? || phases[at].Fetched?)
      modifies this`digests
      ensures Valid() && digests == old(digests)[at := digest]
    {
      hide Join, CountOf, PartLength, LayoutValid, Verifies, StreamValid, EndingValid;
      digests := digests[at := digest];
    }

    /** The site's answer: nothing when it failed, else the bytes of the body. */
    method Respond(at: nat, body: Option<Bytes>, cache: Cache)
      requires Valid() && TidyIn(cache) && at in phases && phases[at].Fetching?
      modifies this`phases, this`honest
      ensures Valid() && TidyIn(cache)
      ensures phases == old(phases)[at := if body.Some? && |body.value| == PartLength(pin.size, partBytes, at)
                                          then Fetched(body.value) else Lost]
      ensures honest == (old(honest) && (phases[at].Fetched? ==> phases[at].bytes == Slice(pin.sha.of, partBytes, at)))
    {
      hide StreamValid, EndingValid, LayoutValid, Slice;
      if body.Some? && |body.value| == PartLength(pin.size, partBytes, at) {
        Advance(at, Fetched(body.value));
        honest := honest && body.value == Slice(pin.sha.of, partBytes, at);
      } else {
        Advance(at, Lost);
      }
    }

    /** A fetched part is put, unless the visit stopped meanwhile. */
    method HashFetched(at: nat, cache: Cache)
      requires Valid() && TidyIn(cache) && at in phases && phases[at].Fetched?
      modifies this`phases, this`digests, this`putHere
      ensures Valid() && TidyIn(cache)
      ensures var bytes := old(phases[at]).bytes;
              phases == old(phases)[at := if store && !stopped then Putting(bytes) else Had(bytes, false)]
      ensures putHere == old(putHere) + {KeyOf(at)}
    {
      hide StreamValid, EndingValid, LayoutValid;
      var bytes := phases[at].bytes;
      Note(at, Digest(bytes));
      Remember(at);
      Advance(at, if store && !stopped then Putting(bytes) else Had(bytes, false));
    }

    method Remember(at: nat)
      requires Valid() && at in phases
      modifies this`putHere
      ensures Valid() && putHere == old(putHere) + {KeyOf(at)}
    {
      hide Join, CountOf, PartLength, LayoutValid, Verifies, StreamValid, EndingValid;
      putHere := putHere + {KeyOf(at)};
    }

    /** The put takes effect, or fails. */
    method PutLands(at: nat, cache: Cache, fails: bool)
      requires Valid() && cache.Valid() && TidyIn(cache) && at in phases && phases[at].Putting?
      modifies this`phases, this`clean, cache`parts
      ensures Valid() && cache.Valid() && TidyIn(cache) && clean == (old(clean) && !fails)
      ensures KeepsOthers(cache.parts, old(cache.parts), id)
      ensures phases == old(phases)[at := Kept(old(phases[at]).bytes)]
      ensures cache.parts == if fails then old(cache.parts) else old(cache.parts)[KeyOf(at) := Entry(old(phases[at]).bytes, id)]
    {
      hide StreamValid, EndingValid, LayoutValid, Verifies;
      var bytes := phases[at].bytes;
      Advance(at, Kept(bytes));
      clean := clean && !fails;
      if !fails {
        cache.parts := cache.parts[KeyOf(at) := Entry(bytes, id)];
      }
    }

    /** After its put, the part is there; a visit that stopped deletes it again. */
    method PutEnds(at: nat, cache: Cache)
      requires Valid() && TidyIn(cache) && at in phases && phases[at].Kept?
      modifies this`phases
      ensures Valid() && TidyIn(cache)
      ensures phases == old(phases)[at := if stopped then Deleting(old(phases[at]).bytes) else Had(old(phases[at]).bytes, false)]
    {
      hide StreamValid, EndingValid, LayoutValid, Verifies;
      Advance(at, if stopped then Deleting(phases[at].bytes) else Had(phases[at].bytes, false));
    }

    method DeleteAgain(at: nat, cache: Cache, fails: bool)
      requires Valid() && cache.Valid() && TidyIn(cache) && at in phases && phases[at].Deleting?
      modifies this`phases, this`failed, cache
      ensures Valid() && cache.Valid() && TidyIn(cache)
      ensures KeepsOthers(cache.parts, old(cache.parts), id)
      ensures phases == old(phases)[at := Had(old(phases[at]).bytes, false)] && failed == (old(failed) || fails)
      ensures cache.parts == (if fails then old(cache.parts) else old(cache.parts) - {KeyOf(at)}) && cache.markers == old(cache.markers)
    {
      hide StreamValid, EndingValid, LayoutValid, Verifies;
      Advance(at, Had(phases[at].bytes, false));
      if fails {
        failed := true;
      } else {
        cache.Delete(KeyOf(at));
      }
    }

    // ---- the steps of the stream ----

    /** A pull: the next part is awaited, or at the end the hash decides. */
    method Pull(cache: Cache)
      requires Valid() && TidyIn(cache) && awaited.None? && ending.Streaming? && !cancelled
      modifies this`pending, this`awaited, this`ending, this`stopped, this`pullSweep
      ensures Valid() && TidyIn(cache)
      ensures old(pending) != [] ==> awaited == Some(old(pending)[0]) && ending.Streaming? && stopped == old(stopped)
      ensures old(pending) == [] ==>
                (ending.Marking? <==> Digest(delivered) == pin.sha && |delivered| == pin.size) &&
                (ending.Rejecting? <==> !ending.Marking?)
      ensures ending.Rejecting? ==> stopped && pullSweep.Listing?
      ensures !ending.Rejecting? ==> stopped == old(stopped)
    {
      hide PartsValid, LayoutValid, Join, Verifies;
      if pending != [] {
        awaited, pending := Some(pending[0]), pending[1..];
      } else if |Join(taken)| != pin.size || Digest(Join(taken)) != pin.sha {
        stopped, ending, pullSweep := true, Rejecting, Listing;
      } else {
        ending := Marking;
      }
    }

    /** The awaited part is there, or lost. */
    method Resolve(cache: Cache)
      requires Valid() && TidyIn(cache) && awaited.Some? && ending.Streaming?
      requires awaited.value in phases && (phases[awaited.value].Had? || phases[awaited.value].Lost?)
      modifies this`phases, this`asked, this`pending, this`awaited, this`taken, this`delivered, this`ending, this`stopped, this`pullSweep
      ensures Valid() && TidyIn(cache)
      ensures var phase := old(phases[awaited.value]);
              && (phase.Lost? ==> ending.Failing? && stopped && delivered == old(delivered))
              && (phase.Had? ==> taken == old(taken) + [phase.bytes])
              && (phase.Had? ==> delivered == if cancelled then old(delivered) else old(delivered) + phase.bytes)
              && (phase.Had? ==> ending == if cancelled then Errored else Streaming)
              && (phase.Had? ==> awaited.None? && stopped == old(stopped))
      ensures forall at :: at in old(phases) ==> at in phases && phases[at] == old(phases[at])
      ensures forall at :: at in phases ==> at in old(phases) || phases[at].Asked?
    {
      hide PartsValid, StreamValid, LayoutValid;
      if phases[awaited.value].Lost? {
        stopped, ending, pullSweep := true, Failing, Listing;
      } else {
        Take();
        AskMoreTidily(cache);
      }
    }

    method Take()
      requires Valid() && awaited.Some? && ending.Streaming?
      requires awaited.value in phases && phases[awaited.value].Had?
      modifies this`awaited, this`taken, this`delivered, this`ending
      ensures LayoutValid() && PartsValid() && StreamValid() && |pending| <= SNAPSHOT_PARTS_IN_FLIGHT
      ensures awaited.None? && ending == if cancelled then Errored else Streaming
      ensures taken == old(taken) + [old(phases[awaited.value]).bytes]
      ensures delivered == if cancelled then old(delivered) else old(delivered) + old(phases[awaited.value]).bytes
    {
      hide PhaseValid, Join, CountOf, Verifies;
      var bytes := phases[awaited.value].bytes;
      JoinAppend(taken, [bytes]);
      JoinOne(bytes);
      taken := taken + [bytes];
      awaited := None;
      if cancelled {
        ending := Errored;
      } else {
        delivered := delivered + bytes;
      }
    }

    method AskMoreTidily(cache: Cache)
      requires LayoutValid() && PartsValid() && StreamValid() && TidyIn(cache) && awaited.None?
      requires (ending.Streaming? || ending.Errored?) && (cancelled || ending.Errored? <==> stopped)
      requires |pending| <= SNAPSHOT_PARTS_IN_FLIGHT && pullSweep.Idle?
      modifies this`phases, this`asked, this`pending
      ensures Valid() && TidyIn(cache)
      ensures forall at :: at in old(phases) ==> at in phases && phases[at] == old(phases[at])
      ensures forall at :: at in phases ==> at in old(phases) || phases[at].Asked?
    {
      hide PartsValid, StreamValid, LayoutValid;
      AskMore();
    }

    /** The marker, with each part's digest as this visit has it. */
    method MarkerLands(cache: Cache, fails: bool)
      requires Valid() && cache.Valid() && TidyIn(cache) && ending.Marking?
      modifies this`ending, this`pullSweep, this`clean, cache`markers
      ensures Valid() && cache.Valid() && TidyIn(cache) && clean == (old(clean) && !fails)
      ensures ending.Clearing? && pullSweep.Listing?
      ensures store && !fails ==> pin.sha in cache.markers && Cuts(cache.markers[pin.sha], pin.sha.of, partBytes)
      ensures cache.markers == if store && !fails then old(cache.markers)[pin.sha := Digests()] else old(cache.markers)
    {
      hide Join, CountOf, PartLength;
      DigestsVerify();
      var all := Digests();
      ending, pullSweep, clean := Clearing, Listing, clean && !fails;
      if store && !fails {
        cache.markers := cache.markers[pin.sha := all];
      }
      assert Digests() == all;
    }

    /** `digests` as the marker holds it. */
    function Digests(): (all: seq<Digest>)
      reads this`digests, this`taken
      ensures |all| == |taken|
    {
      var known := digests;
      seq(|taken|, at => if at in known then known[at] else Digest([]))
    }

    lemma DigestsVerify()
      requires Valid() && ending.Marking?
      ensures Cuts(Digests(), pin.sha.of, partBytes) && Verifies(Digests(), pin.sha)
    {
      hide Join, CountOf, PartLength, Cuts;
      PartsVerify(taken, Digests(), partBytes, pin.sha);
    }

    /** The reader gives up. */
    method Cancel(cache: Cache)
      requires Valid() && TidyIn(cache) && !cancelled && !ending.Closed? && !ending.Errored?
      modifies this`cancelled, this`stopped, this`cancelSweep
      ensures Valid() && TidyIn(cache) && cancelled && stopped && cancelSweep.Listing?
    {
      hide PartsValid, LayoutValid, Join;
      cancelled, stopped, cancelSweep := true, true, Listing;
    }

    // ---- the sweeps ----

    /** What a sweep of the pull drops: after a passed hash, every key but this layout's and
        its marker; after a failed one, all of this snapshot's; else what was put here. */
    predicate Drops(key: Key)
      reads this`ending, this`putHere
    {
      if ending.Clearing? then key != Marker(pin.sha) && !(key.Part? && key == KeyOf(key.at) && key.at < count)
      else if ending.Rejecting? then key.sha == pin.sha
      else key in putHere
    }

    method ListForPull(cache: Cache, fails: bool)
      requires Valid() && TidyIn(cache) && pullSweep.Listing?
      modifies this`pullSweep, this`failed
      ensures Valid() && TidyIn(cache) && failed == (old(failed) || fails)
      ensures pullSweep == Dropping(if fails || !store then {} else cache.Keys())
    {
      hide PartsValid, StreamValid, Join, CountOf, LayoutValid;
      pullSweep, failed := Dropping(if fails || !store then {} else cache.Keys()), failed || fails;
    }

    method ListForCancel(cache: Cache, fails: bool)
      requires Valid() && TidyIn(cache) && cancelSweep.Listing?
      modifies this`cancelSweep, this`failed
      ensures Valid() && TidyIn(cache) && failed == (old(failed) || fails)
      ensures cancelSweep == Dropping(if fails || !store then {} else cache.Keys())
    {
      hide PartsValid, StreamValid, EndingValid, LayoutValid;
      cancelSweep, failed := Dropping(if fails || !store then {} else cache.Keys()), failed || fails;
    }

    method DropForPull(key: Key, cache: Cache, fails: bool)
      requires Valid() && cache.Valid() && TidyIn(cache) && pullSweep.Dropping? && key in pullSweep.todo
      requires ending.Clearing? || ending.Rejecting? || ending.Failing?
      modifies this`pullSweep, this`failed, cache
      ensures Valid() && cache.Valid() && TidyIn(cache)
      ensures KeepsOthers(cache.parts, old(cache.parts), id)
      ensures pullSweep == Dropping(old(pullSweep).todo - {key}) && failed == (old(failed) || (Drops(key) && fails))
      ensures Drops(key) && !fails ==> key !in cache.Keys()
      ensures Drops(key) <==> (if ending.Clearing? then !Own(key) else if ending.Rejecting? then key.sha == pin.sha else key in putHere)
      ensures cache.parts == if Drops(key) && !fails then old(cache.parts) - {key} else old(cache.parts)
      ensures cache.markers == if Drops(key) && !fails && key.Marker? then old(cache.markers) - {key.sha} else old(cache.markers)
    {
      hide PhaseValid, StreamValid, Join, CountOf, LayoutValid;
      pullSweep := Dropping(pullSweep.todo - {key});
      if Drops(key) {
        if fails {
          failed := true;
        } else {
          cache.Delete(key);
        }
      }
    }

    method DropForCancel(key: Key, cache: Cache, fails: bool)
      requires Valid() && cache.Valid() && TidyIn(cache) && cancelSweep.Dropping? && key in cancelSweep.todo
      modifies this`cancelSweep, this`failed, cache
      ensures Valid() && cache.Valid() && TidyIn(cache)
      ensures KeepsOthers(cache.parts, old(cache.parts), id)
      ensures cancelSweep == Dropping(old(cancelSweep).todo - {key}) && failed == (old(failed) || (key in putHere && fails))
      ensures key in putHere && !fails ==> key !in cache.Keys()
      ensures cache.parts == if key in putHere && !fails then old(cache.parts) - {key} else old(cache.parts)
      ensures cache.markers == if key in putHere && !fails && key.Marker? then old(cache.markers) - {key.sha} else old(cache.markers)
    {
      hide PartsValid, StreamValid, EndingValid, LayoutValid;
      cancelSweep := Dropping(cancelSweep.todo - {key});
      if key in putHere {
        if fails {
          failed := true;
        } else {
          cache.Delete(key);
        }
      }
    }

    /** A sweep of the pull is done: the stream ends as it was to. */
    method SweptForPull(cache: Cache)
      requires Valid() && TidyIn(cache) && pullSweep == Dropping({})
      requires ending.Clearing? || ending.Rejecting? || ending.Failing?
      modifies this`pullSweep, this`ending
      ensures Valid() && TidyIn(cache) && pullSweep.Idle?
      ensures ending == if old(ending).Clearing? && !cancelled then Ending.Closed else Errored
    {
      hide PartsValid, StreamValid, LayoutValid;
      pullSweep, ending := Idle, if ending.Clearing? && !cancelled then Ending.Closed else Errored;
    }

    method SweptForCancel(cache: Cache)
      requires Valid() && TidyIn(cache) && cancelSweep == Dropping({})
      modifies this`cancelSweep
      ensures Valid() && TidyIn(cache) && cancelSweep.Idle?
    {
      hide PartsValid, StreamValid, EndingValid, LayoutValid;
      cancelSweep := Idle;
    }

    // ---- what holds at every point ----

    /** The pin is of one file: some bytes have both its digest and its size. */
    predicate Consistent() {
      |pin.sha.of| == pin.size
    }

    /** A part taken from the cache is exactly the pinned file's slice at its index. */
    lemma CachedIsSlice(at: nat)
      requires Valid() && Consistent() && at in phases && phases[at].Had? && phases[at].cached
      ensures phases[at].bytes == Slice(pin.sha.of, partBytes, at)
    {
      hide Join, CountOf, PartLength, Verifies, Slice;
      AcceptedIsSlice(verified.value, pin.sha, partBytes, at, phases[at].bytes);
    }

    /** The stream closes only with the pinned file, of the pinned size. */
    lemma ClosedIsTheFile()
      requires Valid() && ending.Closed?
      ensures delivered == pin.sha.of && |delivered| == pin.size
    {
    }

    /** Each part is requested at most once; at most three are under way; and they are
        handed on in the order of their indexes. */
    lemma WindowHolds()
      requires Valid()
      ensures forall i, j :: 0 <= i < j < |requests| ==> requests[i] != requests[j]
      ensures forall at: nat :: at in phases && !phases[at].Had? ==> |taken| <= at < asked <= |taken| + 3
      ensures !cancelled ==> delivered == Join(taken)
      ensures forall at: nat :: at < |taken| ==> at in phases && phases[at].Had? && taken[at] == phases[at].bytes
    {
      hide PhaseValid, Join, CountOf;
    }

    /** A visit that stopped leaves nothing it put, once everything of it has settled and
        no delete of its failed. */
    lemma StoppedLeavesNothing(cache: Cache)
      requires Valid() && TidyIn(cache) && stopped && !failed && Settled()
      ensures forall k :: k in cache.parts ==> cache.parts[k].owner != id
    {
      hide PartsValid, StreamValid, EndingValid, LayoutValid;
    }

    // ---- an honest site ----

    /** While every body accepted was the pinned file's part, so is every part had, wherever
        it came from; and the hash never fails. */
    ghost predicate Genuine()
      reads this`honest, this`phases, this`ending
    {
      honest && Consistent() ==>
        !ending.Rejecting? && forall at: nat :: at in phases ==> GenuinePhase(at, phases[at])
    }

    ghost predicate GenuinePhase(at: nat, phase: Phase) {
      phase.Fetched? || phase.Putting? || phase.Kept? || phase.Deleting? || phase.Had? ==>
        phase.bytes == Slice(pin.sha.of, partBytes, at)
    }

    ghost predicate NoneLost()
      reads this`phases
    {
      forall at: nat :: at in phases ==> !phases[at].Lost?
    }

    static function StepsLeft(phase: Phase): nat {
      match phase
      case Asked => 7
      case Found(_) => 6
      case Fetching => 5
      case Fetched(_) => 4
      case Putting(_) => 3
      case Kept(_) => 2
      case Deleting(_) => 1
      case Had(_, _) => 0
      case Lost => 0
    }

    /** Part `at` arrives, from the cache, whatever is there, or from the site. */
    method Deliver(at: nat, cache: Cache)
      requires Valid() && cache.Valid() && TidyIn(cache) && Consistent() && Genuine() && honest && NoneLost() && at in phases
      modifies this`phases, this`digests, this`requests, this`putHere, this`failed, this`honest, this`clean, cache
      ensures Valid() && cache.Valid() && TidyIn(cache) && Genuine() && honest && NoneLost()
      ensures phases.Keys == old(phases.Keys) && phases[at].Had?
    {
      hide PartsValid, StreamValid, EndingValid, LayoutValid, PhaseValid, TidyIn, Cache.Valid, Genuine, NoneLost;
      while !phases[at].Had?
        invariant Valid() && cache.Valid() && TidyIn(cache) && Genuine() && honest && NoneLost() && phases.Keys == old(phases.Keys)
        decreases StepsLeft(phases[at])
      {
        DeliverStep(at, cache);
      }
    }

    method DeliverStep(at: nat, cache: Cache)
      requires Valid() && cache.Valid() && TidyIn(cache) && Consistent() && Genuine() && honest && NoneLost()
      requires at in phases && !phases[at].Had?
      modifies this`phases, this`digests, this`requests, this`putHere, this`failed, this`honest, this`clean, cache
      ensures Valid() && cache.Valid() && TidyIn(cache) && Genuine() && honest && NoneLost()
      ensures phases.Keys == old(phases.Keys) && StepsLeft(phases[at]) < StepsLeft(old(phases[at]))
    {
      hide PartsValid, StreamValid, EndingValid, LayoutValid, PhaseValid, TidyIn, Cache.Valid, Slice, PartLength;
      match phases[at] {
        case Asked => Match(at, cache, false);
        case Found(_) =>
          HashFound(at, cache);
          CachedIsGenuine(at);
        case Fetching =>
          SliceFits(at);
          Respond(at, Some(Slice(pin.sha.of, partBytes, at)), cache);
        case Fetched(_) => HashFetched(at, cache);
        case Putting(_) => PutLands(at, cache, false);
        case Kept(_) => PutEnds(at, cache);
        case Deleting(_) => DeleteAgain(at, cache, false);
        case Had(_, _) => assert false;
        case Lost => assert false;
      }
    }

    lemma CachedIsGenuine(at: nat)
      requires Valid() && at in phases && (phases[at].Had? ==> phases[at].cached)
      ensures Consistent() && phases[at].Had? ==> phases[at].bytes == Slice(pin.sha.of, partBytes, at)
    {
      hide *;
      if Consistent() && phases[at].Had? {
        CachedIsSlice(at);
      }
    }

    lemma CachedFits(at: nat, cache: Cache)
      requires Valid() && at in phases
      ensures AllCached(cache) && Consistent() ==>
                && In(at, Slice(pin.sha.of, partBytes, at), cache.parts)
                && |Slice(pin.sha.of, partBytes, at)| == PartLength(pin.size, partBytes, at)
                && (phases[at].Found? ==> Expected(at) == Digest(Slice(pin.sha.of, partBytes, at)))
    {
      hide StreamValid, EndingValid, PhaseValid, Slice, PartLength, CountOf;
      if Consistent() {
        SliceFits(at);
      }
    }

    lemma SliceFits(at: nat)
      requires Valid() && Consistent() && at in phases
      ensures |Slice(pin.sha.of, partBytes, at)| == PartLength(pin.size, partBytes, at)
    {
      hide StreamValid, EndingValid, PhaseValid, CountOf, Verifies;
      Lengths(pin.size, partBytes, at);
      SliceLength(pin.sha.of, partBytes, at);
    }

    /** With an honest site, what was taken is how the file begins, ... */
    lemma TakenBeginsTheFile()
      requires Valid() && Consistent() && Genuine() && honest
      ensures Join(taken) <= pin.sha.of
    {
      hide Join, CountOf, EndingValid, PhaseValid, Slice, Verifies;
      SlicesPrefix(pin.sha.of, partBytes, taken, |taken|);
      assert taken[..|taken|] == taken;
    }

    /** ... so is what was delivered, ... */
    lemma DeliveredBeginsTheFile()
      requires Valid() && Consistent() && Genuine() && honest
      ensures delivered <= pin.sha.of
    {
      hide PartsValid, LayoutValid, EndingValid, Join, Genuine;
      TakenBeginsTheFile();
    }

    /** ... and all of it is the file. */
    lemma TakenIsTheFile()
      requires Valid() && Consistent() && Genuine() && honest && |taken| == count
      ensures Join(taken) == pin.sha.of
    {
      hide Join, CountOf, PhaseValid, EndingValid, Slice, Verifies;
      SlicesJoin(pin.sha.of, partBytes, taken);
    }

    lemma EverythingTaken()
      requires Valid() && awaited.None? && pending == [] && ending.Streaming?
      ensures |taken| == count
      ensures !cancelled ==> delivered == Join(taken)
    {
      hide PartsValid, LayoutValid, Join;
    }

    /** At the end the hash of an honest site's parts passes. */
    lemma HashPasses()
      requires Valid() && Consistent() && Genuine() && honest
      requires awaited.None? && pending == [] && ending.Streaming? && !cancelled
      ensures delivered == pin.sha.of && Digest(delivered) == pin.sha && |delivered| == pin.size
    {
      hide Valid, Genuine, Join;
      EverythingTaken();
      TakenIsTheFile();
    }

    lemma NextTaken()
      requires Valid() && awaited.Some?
      ensures awaited.value in phases && |taken| < count
    {
      hide EndingValid, LayoutValid, PhaseValid, Join;
    }

    /** From wherever any schedule left the visit, with a reader that has not given up and
        no part lost: when every answer was, and from here is, the pinned file's part, reading
        on gives the whole file and the stream closes, whatever parts the cache holds. */
    method ReadToEnd(cache: Cache)
      requires Valid() && cache.Valid() && TidyIn(cache) && Genuine()
      requires Consistent() && honest && NoneLost() && ending.Streaming? && !cancelled
      modifies this, cache
      ensures Valid() && cache.Valid() && ending.Closed? && delivered == pin.sha.of
    {
      hide PartsValid, StreamValid, EndingValid, LayoutValid, TidyIn, Cache.Valid, Genuine, NoneLost;
      if awaited.Some? {
        Arrive(cache);
      }
      while pending != []
        invariant Valid() && cache.Valid() && TidyIn(cache) && Genuine() && honest && NoneLost()
        invariant ending.Streaming? && awaited.None? && !cancelled
        decreases count - |taken|
      {
        PullNext(cache);
        Arrive(cache);
      }
      HashPasses();
      Pull(cache);
      Close(cache);
    }

    method PullNext(cache: Cache)
      requires Valid() && TidyIn(cache) && Genuine() && ending.Streaming? && awaited.None? && !cancelled && pending != []
      modifies this`pending, this`awaited, this`ending, this`stopped, this`pullSweep
      ensures Valid() && TidyIn(cache) && Genuine() && ending.Streaming? && awaited.Some?
    {
      hide PartsValid, StreamValid, EndingValid, LayoutValid, TidyIn, GenuinePhase;
      Pull(cache);
    }

    /** The awaited part arrives and is handed on. */
    method Arrive(cache: Cache)
      requires Valid() && cache.Valid() && TidyIn(cache) && Consistent() && Genuine() && honest && NoneLost()
      requires ending.Streaming? && awaited.Some? && !cancelled
      modifies this, cache
      ensures Valid() && cache.Valid() && TidyIn(cache) && Genuine() && honest && NoneLost()
      ensures ending.Streaming? && awaited.None? && !cancelled && |taken| == old(|taken|) + 1 <= count
    {
      hide PartsValid, StreamValid, EndingValid, LayoutValid, PhaseValid, TidyIn, Cache.Valid, Slice, GenuinePhase;
      NextTaken();
      Deliver(awaited.value, cache);
      Resolved(cache);
    }

    /** Taking a part, and asking for more, keeps what there is of every other. */
    method Resolved(cache: Cache)
      requires Valid() && TidyIn(cache) && Genuine() && ending.Streaming? && awaited.Some?
      requires awaited.value in phases && (phases[awaited.value].Had? || phases[awaited.value].Lost?)
      modifies this`phases, this`asked, this`pending, this`awaited, this`taken, this`delivered, this`ending, this`stopped, this`pullSweep
      ensures Valid() && TidyIn(cache) && Genuine()
      ensures old(NoneLost()) ==> NoneLost() && awaited.None? && |taken| == old(|taken|) + 1
      ensures old(NoneLost()) && !cancelled ==> ending.Streaming?
      ensures if old(phases[awaited.value]).Lost? then ending.Failing? && stopped
              else ending == (if cancelled then Errored else Streaming) && stopped == old(stopped)
      ensures forall at :: at in old(phases) ==> at in phases && phases[at] == old(phases[at])
      ensures forall at :: at in phases ==> at in old(phases) || phases[at].Asked?
    {
      hide PartsValid, StreamValid, EndingValid, LayoutValid, PhaseValid, TidyIn, Slice;
      Resolve(cache);
    }

    method Close(cache: Cache)
      requires Valid() && cache.Valid() && TidyIn(cache) && ending.Marking? && !cancelled
      modifies this, cache
      ensures Valid() && cache.Valid() && ending.Closed? && delivered == old(delivered) && requests == old(requests)
    {
      hide *;
      MarkerLands(cache, false);
      CloseSwept(cache);
    }

    /** The sweep after a passed hash, and the end of the stream. */
    method CloseSwept(cache: Cache)
      requires Valid() && cache.Valid() && TidyIn(cache) && ending.Clearing? && !cancelled
      modifies this, cache
      ensures Valid() && cache.Valid() && ending.Closed? && delivered == old(delivered) && requests == old(requests)
    {
      SweepsOfEndings();
      hide *;
      if pullSweep.Listing? {
        ListForPull(cache, false);
      }
      SweepAll(cache);
      SweptForPull(cache);
    }

    method SweepAll(cache: Cache)
      requires Valid() && cache.Valid() && TidyIn(cache) && ending.Clearing? && pullSweep.Dropping?
      modifies this`pullSweep, this`failed, cache
      ensures Valid() && cache.Valid() && TidyIn(cache) && pullSweep == Dropping({})
    {
      hide *;
      while pullSweep != Dropping({})
        invariant Valid() && cache.Valid() && TidyIn(cache) && pullSweep.Dropping?
        decreases if pullSweep.Dropping? then |pullSweep.todo| else 0
      {
        var key :| key in pullSweep.todo;
        DropForPull(key, cache, false);
      }
    }

    // ---- a later visit ----

    /** Part `at` is in the cache with these bytes. */
    predicate In(at: nat, bytes: Bytes, parts: map<Key, Entry>) {
      KeyOf(at) in parts && parts[KeyOf(at)].bytes == bytes
    }

    /** While nothing failed and nobody else writes, each part had, found or put is in the
        cache; and once it was put, the marker, with the digests of the file's slices. */
    ghost predicate Keeps(cache: Cache)
      reads this, cache
    {
      clean && store && !stopped ==>
        && cancelSweep.Idle? && !cancelled && !ending.Rejecting? && !ending.Failing? && !ending.Errored?
        && (forall at: nat :: at in phases ==> KeptPhase(at, phases[at], cache.parts))
        && (ending.Clearing? || ending.Closed? ==>
              pin.sha in cache.markers && Cuts(cache.markers[pin.sha], pin.sha.of, partBytes))
    }

    lemma CountIs()
      requires Valid()
      ensures count == CountOf(pin.size, partBytes) && 0 < partBytes
    {
      hide PartsValid, StreamValid, EndingValid;
    }

    /** A key of this snapshot in this layout, or its marker's. */
    predicate Own(k: Key) {
      k == Marker(pin.sha) || (k.Part? && k == KeyOf(k.at) && k.at < count)
    }

    /** While no delete and no listing failed and nobody else writes: what a sweep after a passed
        hash has yet to meet is all there is but the file's own; and closed, there is nothing
        else. */
    ghost predicate Tidied(cache: Cache)
      reads this, cache
    {
      store && !failed ==>
        && (ending.Clearing? && pullSweep.Dropping? ==> forall k :: k in cache.Keys() ==> Own(k) || k in pullSweep.todo)
        && (ending.Closed? ==> forall k :: k in cache.Keys() ==> Own(k))
    }

    predicate KeptPhase(at: nat, phase: Phase, parts: map<Key, Entry>) {
      && (phase.Found? || phase.Kept? || phase.Had? ==> In(at, phase.bytes, parts))
      && !phase.Deleting?
    }

    /** Every part is in the cache and the marker says so. */
    ghost predicate Held(parts: map<Key, Entry>) {
      forall at: nat :: at < count ==> In(at, Slice(pin.sha.of, partBytes, at), parts)
    }

    /** The visit found all of it there and has asked the site for nothing. */
    ghost predicate AllCached(cache: Cache)
      reads this, cache
    {
      && verified.Some? && Cuts(verified.value, pin.sha.of, partBytes) && Held(cache.parts) && honest
      && requests == [] && putHere == {} && !ending.Rejecting? && !ending.Failing? && (ending.Errored? ==> cancelled)
      && forall at: nat :: at in phases ==> CachedPhase(at, phases[at])
    }

    ghost predicate CachedPhase(at: nat, phase: Phase) {
      || phase.Asked?
      || phase == Found(Slice(pin.sha.of, partBytes, at))
      || phase == Had(Slice(pin.sha.of, partBytes, at), true)
    }

    /** A visit that closed, nothing having failed, leaves the whole file to a later one. */
    lemma ClosedLeavesAll(cache: Cache)
      requires Valid() && Keeps(cache) && Consistent() && ending.Closed? && clean && store
      ensures Held(cache.parts) && pin.sha in cache.markers && Cuts(cache.markers[pin.sha], pin.sha.of, partBytes)
    {
      hide Join, CountOf, PhaseValid, Cuts, Slice, PartLength;
      forall at: nat | at < count
        ensures In(at, Slice(pin.sha.of, partBytes, at), cache.parts)
      {
        TakenIsSlice(at);
        assert KeptPhase(at, phases[at], cache.parts);
      }
    }

    lemma TakenIsSlice(at: nat)
      requires Valid() && Consistent() && ending.Closed? && at < count
      ensures at in phases && phases[at].Had? && phases[at].bytes == Slice(pin.sha.of, partBytes, at)
    {
      hide Join, CountOf, Slice;
      JoinedParts(taken, partBytes, at);
    }

    /** What the cache holds of the file, a verified visit takes from there. */
    method FromCache(at: nat, cache: Cache)
      requires Valid() && TidyIn(cache) && Consistent() && at in phases && phases[at].Asked? && verified.Some?
      requires KeyOf(at) in cache.parts && cache.parts[KeyOf(at)].bytes == Slice(pin.sha.of, partBytes, at)
      requires at < |verified.value| && verified.value[at] == Digest(Slice(pin.sha.of, partBytes, at))
      modifies this`phases, this`digests, this`requests
      ensures Valid() && TidyIn(cache) && requests == old(requests)
      ensures phases == old(phases)[at := Had(Slice(pin.sha.of, partBytes, at), true)]
    {
      hide PartsValid, StreamValid, EndingValid, LayoutValid, Slice, PartLength, TidyIn;
      SliceFits(at);
      Match(at, cache, false);
      HashFound(at, cache);
    }

    /** Part `at` comes from the cache, whatever was done of it. */
    method CachedArrives(at: nat, cache: Cache)
      requires Valid() && TidyIn(cache) && Genuine() && Consistent() && AllCached(cache) && at in phases
      modifies this`phases, this`digests, this`requests
      ensures Valid() && TidyIn(cache) && Genuine() && AllCached(cache)
      ensures phases.Keys == old(phases.Keys) && phases[at].Had?
    {
      hide PartsValid, StreamValid, EndingValid, LayoutValid, PhaseValid, TidyIn, Slice, PartLength, Cuts;
      CachedFits(at, cache);
      if phases[at].Asked? {
        Match(at, cache, false);
      }
      if phases[at].Found? {
        CachedFits(at, cache);
        HashFound(at, cache);
      }
    }

    method TakeCached(cache: Cache)
      requires Valid() && TidyIn(cache) && Genuine() && Consistent() && AllCached(cache)
      requires ending.Streaming? && awaited.Some? && !cancelled
      modifies this
      ensures Valid() && TidyIn(cache) && Genuine() && AllCached(cache)
      ensures ending.Streaming? && awaited.None? && !cancelled && |taken| == old(|taken|) + 1 <= count
    {
      hide PartsValid, StreamValid, EndingValid, LayoutValid, PhaseValid, TidyIn, Slice, GenuinePhase, Cuts, Held;
      NextTaken();
      CachedArrives(awaited.value, cache);
      Resolved(cache);
    }

    /** A visit that finds all of the file in the cache reads to the end without the site. */
    method ReadCached(cache: Cache)
      requires Valid() && cache.Valid() && TidyIn(cache) && Genuine() && Consistent() && AllCached(cache) && !cancelled
      modifies this, cache
      ensures Valid() && cache.Valid() && ending.Closed? && delivered == pin.sha.of && requests == []
    {
      hide PartsValid, StreamValid, EndingValid, LayoutValid, TidyIn, Cache.Valid, Genuine, Cuts, Held, CachedPhase;
      if ending.Streaming? && awaited.Some? {
        TakeCached(cache);
      }
      while ending.Streaming? && pending != []
        invariant Valid() && cache.Valid() && TidyIn(cache) && Genuine() && AllCached(cache)
        invariant (ending.Streaming? ==> awaited.None?) && !cancelled
        decreases count - |taken|
      {
        PullNext(cache);
        TakeCached(cache);
      }
      if ending.Streaming? {
        HashPasses();
        Pull(cache);
      }
      if ending.Marking? {
        Close(cache);
      } else if ending.Clearing? {
        CloseSwept(cache);
      }
      ClosedIsTheFile();
    }

    // ---- any of the steps ----

    /** A move of part `at`, when it is one the part waits for. */
    method MovePart(move: Move, cache: Cache)
      requires Valid() && cache.Valid() && TidyIn(cache) && Genuine()
      modifies this, cache
      ensures Valid() && cache.Valid() && TidyIn(cache) && Genuine()
      ensures KeepsOthers(cache.parts, old(cache.parts), id)
      ensures old(Tidied(cache)) ==> Tidied(cache)
      ensures old(Keeps(cache)) ==> Keeps(cache)
      ensures old(AllCached(cache)) && Consistent() && !Misses(move) ==> AllCached(cache)
      ensures !move.Cancels? ==> cancelled == old(cancelled)
    {
      hide Valid, TidyIn, Cache.Valid, KeepsOthers, Consistent, Slice, PartLength, Cuts, Cache.Keys;
      NothingChanges(cache.parts);
      match move {
        case MatchEnds(at, fails) =>
          if at in phases && phases[at].Asked? {
            CachedFits(at, cache);
            Match(at, cache, fails);
          }
        case HashEnds(at) =>
          if at in phases && phases[at].Found? {
            CachedFits(at, cache);
            HashFound(at, cache);
            CachedIsGenuine(at);
          } else if at in phases && phases[at].Fetched? { HashFetched(at, cache); }
        case Answers(at, body) =>
          if at in phases && phases[at].Fetching? { Respond(at, body, cache); }
        case _ =>
      }
    }

    /** A put is in the cache then, and what else was there still is. */
    lemma PutStays(at: nat, entry: Entry, parts: map<Key, Entry>)
      requires at < count
      ensures In(at, entry.bytes, parts[KeyOf(at) := entry]) && Own(KeyOf(at))
      ensures forall b: nat, bytes :: b != at && In(b, bytes, parts) ==> In(b, bytes, parts[KeyOf(at) := entry])
    {
    }

    /** A move of part `at`'s put. */
    method MovePut(move: Move, cache: Cache)
      requires Valid() && cache.Valid() && TidyIn(cache) && Genuine()
      modifies this, cache
      ensures Valid() && cache.Valid() && TidyIn(cache) && Genuine()
      ensures KeepsOthers(cache.parts, old(cache.parts), id)
      ensures old(Tidied(cache)) ==> Tidied(cache)
      ensures old(Keeps(cache)) ==> Keeps(cache)
      ensures old(AllCached(cache)) && Consistent() && !Misses(move) ==> AllCached(cache)
      ensures !move.Cancels? ==> cancelled == old(cancelled)
    {
      PhasesBelow();
      hide Valid, TidyIn, Cache.Valid, KeepsOthers, Consistent, Slice, PartLength, Cuts, In, Own, Misses;
      NothingChanges(cache.parts);
      match move {
        case PutLands(at, fails) =>
          if at in phases && phases[at].Putting? {
            PutStays(at, Entry(phases[at].bytes, id), cache.parts);
            PutLands(at, cache, fails);
          }
        case PutEnds(at) =>
          if at in phases && phases[at].Kept? { PutEnds(at, cache); }
        case _ =>
      }
    }

    /** The delete of a put that came too late. */
    method MoveDelete(move: Move, cache: Cache)
      requires Valid() && cache.Valid() && TidyIn(cache) && Genuine()
      modifies this, cache
      ensures Valid() && cache.Valid() && TidyIn(cache) && Genuine()
      ensures KeepsOthers(cache.parts, old(cache.parts), id)
      ensures old(Tidied(cache)) ==> Tidied(cache)
      ensures old(Keeps(cache)) ==> Keeps(cache)
      ensures old(AllCached(cache)) && Consistent() && !Misses(move) ==> AllCached(cache)
      ensures !move.Cancels? ==> cancelled == old(cancelled)
    {
      PhasesBelow();
      hide Valid, TidyIn, Cache.Valid, KeepsOthers, Consistent, Slice, PartLength, Cuts;
      NothingChanges(cache.parts);
      match move {
        case DeleteEnds(at, fails) =>
          if at in phases && phases[at].Deleting? { DeleteAgain(at, cache, fails); }
        case _ =>
      }
    }

    lemma NothingChanges(parts: map<Key, Entry>)
      ensures KeepsOthers(parts, parts, id)
    {
    }

    /** The reader's pull keeps the claim on an honest site: its hash passes. */
    method PullAny(cache: Cache)
      requires Valid() && TidyIn(cache) && Genuine() && awaited.None? && ending.Streaming? && !cancelled
      modifies this`pending, this`awaited, this`ending, this`stopped, this`pullSweep
      ensures Valid() && TidyIn(cache) && Genuine()
      ensures if ending.Rejecting? then stopped else (ending.Streaming? || ending.Marking?) && stopped == old(stopped)
    {
      hide PartsValid, StreamValid, EndingValid, LayoutValid, TidyIn, GenuinePhase;
      if pending == [] && honest && Consistent() {
        HashPasses();
      }
      Pull(cache);
    }

    /** A move of the stream, when it is one it waits for. */
    method MoveStream(move: Move, cache: Cache)
      requires Valid() && cache.Valid() && TidyIn(cache) && Genuine()
      modifies this, cache
      ensures Valid() && cache.Valid() && TidyIn(cache) && Genuine()
      ensures KeepsOthers(cache.parts, old(cache.parts), id)
      ensures old(Tidied(cache)) ==> Tidied(cache)
      ensures old(Keeps(cache)) ==> Keeps(cache)
      ensures old(AllCached(cache)) && Consistent() && !Misses(move) ==> AllCached(cache)
      ensures !move.Cancels? ==> cancelled == old(cancelled)
    {
      hide Valid, TidyIn, Cache.Valid, KeepsOthers, Consistent, GenuinePhase, Cuts, In;
      NothingChanges(cache.parts);
      SweepsOfEndings();
      match move {
        case Pulls =>
          if awaited.None? && ending.Streaming? && !cancelled { PullAny(cache); }
        case AwaitEnds =>
          if awaited.Some? && ending.Streaming? && awaited.value in phases
             && (phases[awaited.value].Had? || phases[awaited.value].Lost?) {
            Resolved(cache);
          }
        case MarkerEnds(fails) =>
          if ending.Marking? { MarkerLands(cache, fails); }
        case Cancels =>
          if !cancelled && !ending.Closed? && !ending.Errored? { Cancel(cache); }
        case _ =>
      }
    }

    /** A sweep after a passed hash drops none of the file's own parts, and not its marker. */
    lemma DropLeaves(key: Key, parts: map<Key, Entry>)
      requires ending.Clearing? && Drops(key)
      ensures forall at: nat, bytes :: at < count && In(at, bytes, parts) ==> In(at, bytes, parts - {key})
      ensures key != Marker(pin.sha)
    {
    }

    lemma PhasesBelow()
      requires Valid()
      ensures forall at: nat :: at in phases ==> at < count
    {
      hide PhaseValid, StreamValid, EndingValid, LayoutValid;
    }

    /** A move of a sweep, when it is one it waits for. */
    method MoveSweep(move: Move, cache: Cache)
      requires Valid() && cache.Valid() && TidyIn(cache) && Genuine()
      modifies this, cache
      ensures Valid() && cache.Valid() && TidyIn(cache) && Genuine()
      ensures KeepsOthers(cache.parts, old(cache.parts), id)
      ensures old(Tidied(cache)) ==> Tidied(cache)
      ensures old(Keeps(cache)) ==> Keeps(cache)
      ensures old(AllCached(cache)) && Consistent() && !Misses(move) ==> AllCached(cache)
      ensures !move.Cancels? ==> cancelled == old(cancelled)
    {
      hide Valid, TidyIn, Cache.Valid, KeepsOthers, Consistent, GenuinePhase, Cuts, CachedPhase, In;
      NothingChanges(cache.parts);
      SweepsOfEndings();
      match move {
        case Lists(cancel, fails) =>
          if !cancel && pullSweep.Listing? { ListForPull(cache, fails); }
          else if cancel && cancelSweep.Listing? { ListForCancel(cache, fails); }
        case Drops(cancel, key, fails) =>
          if !cancel && pullSweep.Dropping? && key in pullSweep.todo {
            PhasesBelow();
            if ending.Clearing? && Drops(key) {
              DropLeaves(key, cache.parts);
            }
            DropForPull(key, cache, fails);
          }
          else if cancel && cancelSweep.Dropping? && key in cancelSweep.todo { DropForCancel(key, cache, fails); }
        case Swept(cancel) =>
          if !cancel && pullSweep == Dropping({}) { SweptForPull(cache); }
          else if cancel && cancelSweep == Dropping({}) { SweptForCancel(cache); }
        case _ =>
      }
    }

    lemma SweepsOfEndings()
      requires Valid()
      ensures !pullSweep.Idle? <==> ending.Clearing? || ending.Rejecting? || ending.Failing?
    {
      hide PartsValid, StreamValid, LayoutValid;
    }

    method Do(move: Move, cache: Cache)
      requires Valid() && cache.Valid() && TidyIn(cache) && Genuine()
      modifies this, cache
      ensures Valid() && cache.Valid() && TidyIn(cache) && Genuine()
      ensures KeepsOthers(cache.parts, old(cache.parts), id)
      ensures old(Tidied(cache)) ==> Tidied(cache)
      ensures old(Keeps(cache)) ==> Keeps(cache)
      ensures old(AllCached(cache)) && Consistent() && !Misses(move) ==> AllCached(cache)
      ensures !move.Cancels? ==> cancelled == old(cancelled)
    {
      hide *;
      if move.MatchEnds? || move.HashEnds? || move.Answers? {
        MovePart(move, cache);
      } else if move.PutLands? || move.PutEnds? {
        MovePut(move, cache);
      } else if move.DeleteEnds? {
        MoveDelete(move, cache);
      } else if move.Lists? || move.Drops? || move.Swept? {
        MoveSweep(move, cache);
      } else {
        MoveStream(move, cache);
      }
    }
  }

  // ---- one visit after another ----

  predicate Matches(moves: seq<Move>) {
    forall i :: 0 <= i < |moves| ==> !Misses(moves[i])
  }

  predicate NotCancelled(moves: seq<Move>) {
    forall i :: 0 <= i < |moves| ==> !moves[i].Cancels?
  }

  /** A visit left alone with the cache, through any moves. */
  method RunAlone(visit: Visit, cache: Cache, moves: seq<Move>)
    requires visit.Valid() && cache.Valid() && visit.TidyIn(cache) && visit.Genuine() && visit.Keeps(cache)
    requires visit.Tidied(cache)
    modifies visit, cache
    ensures visit.Valid() && cache.Valid() && visit.TidyIn(cache) && visit.Genuine() && visit.Keeps(cache)
    ensures visit.Tidied(cache)
    ensures KeepsOthers(cache.parts, old(cache.parts), visit.id)
  {
    hide Visit.Valid, Visit.TidyIn, Visit.Genuine, Visit.Keeps, Visit.Tidied, Visit.AllCached, Cache.Valid, Visit.Consistent;
    for n := 0 to |moves|
      invariant visit.Valid() && cache.Valid() && visit.TidyIn(cache) && visit.Genuine() && visit.Keeps(cache)
      invariant visit.Tidied(cache)
      invariant KeepsOthers(cache.parts, old(cache.parts), visit.id)
    {
      visit.Do(moves[n], cache);
    }
  }

  /** A visit that finds the whole file in the cache asks the site for nothing, through any
      moves, as long as no look into the cache fails. */
  method RunCached(visit: Visit, cache: Cache, moves: seq<Move>)
    requires visit.Valid() && cache.Valid() && visit.TidyIn(cache) && visit.Genuine() && visit.Consistent()
    requires visit.AllCached(cache) && Matches(moves)
    modifies visit, cache
    ensures visit.Valid() && cache.Valid() && visit.TidyIn(cache) && visit.Genuine()
    ensures visit.AllCached(cache) && visit.requests == []
    ensures !old(visit.cancelled) && NotCancelled(moves) ==> !visit.cancelled
  {
    hide Visit.Valid, Visit.TidyIn, Visit.Genuine, Visit.Keeps, Cache.Valid, Visit.Consistent, Visit.CachedPhase, Visit.Held, Cuts, KeepsOthers;
    for n := 0 to |moves|
      invariant visit.Valid() && cache.Valid() && visit.TidyIn(cache) && visit.Genuine() && visit.AllCached(cache)
      invariant !old(visit.cancelled) && NotCancelled(moves) ==> !visit.cancelled
    {
      visit.Do(moves[n], cache);
    }
  }

  /** A page visits again what a visit put there. */
  method Reopen(first: Visit, cache: Cache) returns (second: Visit)
    requires first.Valid() && cache.Valid() && first.Keeps(cache) && first.Consistent()
    requires first.ending.Closed? && first.clean && first.store
    requires forall k :: k in cache.parts ==> cache.parts[k].owner <= first.id
    ensures fresh(second) && second.Valid() && second.TidyIn(cache) && second.Genuine() && second.AllCached(cache)
    ensures second.pin == first.pin && second.partBytes == first.partBytes && second.ending.Streaming? && !second.cancelled
  {
    first.ClosedLeavesAll(cache);
    var marker := cache.markers[first.pin.sha];
    MarkerFits(first, marker);
    second := new Visit(first.id + 1, first.pin, first.partBytes, true, Some(marker));
    hide Visit.Valid, Cuts, Verifies, CountOf, Slice;
  }

  lemma MarkerFits(first: Visit, marker: seq<Digest>)
    requires first.Valid() && first.Consistent() && Cuts(marker, first.pin.sha.of, first.partBytes)
    ensures |marker| == CountOf(first.pin.size, first.partBytes) == first.count && Verifies(marker, first.pin.sha)
    ensures 0 < first.partBytes <= IMAGE_PART_BYTES
  {
    hide CountOf, Slice;
  }

  /** A visit alone with the cache, but for parts already there, through any moves. */
  method VisitOnce(cache: Cache, pin: Pin, partBytes: nat, marker: Option<seq<Digest>>, moves: seq<Move>) returns (first: Visit)
    requires cache.Valid() && forall k :: k in cache.parts ==> cache.parts[k].owner < 0
    requires 0 < partBytes <= IMAGE_PART_BYTES && (marker.Some? ==> Verifies(marker.value, pin.sha))
    modifies cache
    ensures fresh(first) && first.Valid() && cache.Valid() && first.Keeps(cache)
    ensures first.ending.Closed? && !first.failed ==> forall k :: k in cache.Keys() ==>
              k == Marker(pin.sha) || (k.Part? && k.sha == pin.sha && k.partBytes == partBytes && k.at < CountOf(pin.size, partBytes))
    ensures first.pin == pin && first.partBytes == partBytes && first.store
    ensures forall k :: k in cache.parts ==> cache.parts[k].owner <= first.id
  {
    first := new Visit(0, pin, partBytes, true, marker);
    FreshKeeps(first, cache);
    hide Visit.Valid, Visit.TidyIn, Visit.Genuine, Visit.Keeps, Cache.Valid, Verifies, KeepsOthers;
    ghost var before := cache.parts;
    RunAlone(first, cache, moves);
    OwnersOf(before, cache.parts);
    first.CountIs();
  }

  /** When such a visit closed, with no put and no marker of its failing, a second visit,
      through any moves but a failing look into the cache, asks the site for nothing,
      whatever that would answer; and unless cancelled it then reads on to the end and gives
      the whole file. */
  method VisitAgain(first: Visit, cache: Cache, later: seq<Move>) returns (second: Visit)
    requires first.Valid() && cache.Valid() && first.Keeps(cache) && first.Consistent()
    requires first.ending.Closed? && first.clean && first.store
    requires forall k :: k in cache.parts ==> cache.parts[k].owner <= first.id
    requires Matches(later)
    modifies cache
    ensures fresh(second) && second.pin == first.pin && second.partBytes == first.partBytes && second.requests == []
    ensures NotCancelled(later) ==> second.ending.Closed? && second.delivered == first.pin.sha.of
  {
    hide Visit.Valid, Visit.TidyIn, Visit.Genuine, Visit.Keeps, Cache.Valid, Visit.AllCached;
    second := Reopen(first, cache);
    RunCached(second, cache, later);
    if !second.cancelled {
      second.ReadCached(cache);
    }
  }

  lemma FreshKeeps(visit: Visit, cache: Cache)
    requires visit.Valid() && visit.ending.Streaming? && visit.cancelSweep.Idle? && !visit.cancelled && visit.honest
    requires forall at :: at in visit.phases ==> visit.phases[at].Asked?
    requires forall k :: k in cache.parts ==> cache.parts[k].owner != visit.id
    ensures visit.Keeps(cache) && visit.Genuine() && visit.TidyIn(cache) && visit.Tidied(cache)
  {
    hide Visit.Valid;
  }

  lemma OwnersOf(before: map<Key, Entry>, after: map<Key, Entry>)
    requires KeepsOthers(after, before, 0) && forall k :: k in before ==> before[k].owner < 0
    ensures forall k :: k in after ==> after[k].owner <= 0
  {
  }

  // ---- any run ----

  /** A page opens a visit and reads the marker there, a visit moves, or a part's key is
      disturbed. */
  datatype Event =
    | Opens(pin: Pin, size: int, partBytes: int, names: nat, store: bool, readable: bool)
    | Happens(visit: nat, move: Move)
    | Disturbs(key: Key, junk: Option<Bytes>)

  ghost predicate AllValid(visits: seq<Visit>, cache: Cache)
    reads cache, visits
  {
    && cache.Valid()
    && (forall i :: 0 <= i < |visits| ==> visits[i].id == i && visits[i].Valid() && visits[i].TidyIn(cache) && visits[i].Genuine())
    && (forall k :: k in cache.parts ==> cache.parts[k].owner < |visits|)
  }

  /** What any run leaves true of a visit: a cached part it took is the pinned file's slice;
      it closes only with the pinned file; while the site was honest with it, what it delivered
      is how that file begins and its hash does not fail; each part is asked of the site at
      most once, and at most three are under way; and stopped and settled, it has left nothing
      behind. */
  ghost predicate Promised(visit: Visit, cache: Cache)
    reads visit, cache
  {
    && (visit.Consistent() ==>
          forall at: nat :: at in visit.phases && visit.phases[at].Had? && visit.phases[at].cached ==>
            visit.phases[at].bytes == Slice(visit.pin.sha.of, visit.partBytes, at))
    && (visit.ending.Closed? ==> visit.delivered == visit.pin.sha.of && |visit.delivered| == visit.pin.size)
    && (visit.Consistent() && visit.honest ==> visit.delivered <= visit.pin.sha.of && !visit.ending.Rejecting?)
    && (forall i, j :: 0 <= i < j < |visit.requests| ==> visit.requests[i] != visit.requests[j])
    && (forall at: nat :: at in visit.phases && !visit.phases[at].Had? ==>
          |visit.taken| <= at < visit.asked <= |visit.taken| + 3)
    && (visit.stopped && !visit.failed && visit.Settled() ==>
          forall k :: k in cache.parts ==> cache.parts[k].owner != visit.id)
  }

  lemma PromiseKept(visit: Visit, cache: Cache)
    requires visit.Valid() && visit.TidyIn(cache) && visit.Genuine()
    ensures Promised(visit, cache)
  {
    hide Visit.Valid, Visit.TidyIn, Visit.Settled, Visit.Consistent, Visit.GenuinePhase, Slice, Join;
    if visit.Consistent() {
      forall at: nat | at in visit.phases && visit.phases[at].Had? && visit.phases[at].cached
        ensures visit.phases[at].bytes == Slice(visit.pin.sha.of, visit.partBytes, at)
      {
        visit.CachedIsSlice(at);
      }
    }
    if visit.ending.Closed? {
      visit.ClosedIsTheFile();
    }
    if visit.Consistent() && visit.honest {
      visit.DeliveredBeginsTheFile();
    }
    visit.WindowHolds();
    if visit.stopped && !visit.failed && visit.Settled() {
      visit.StoppedLeavesNothing(cache);
    }
  }

  method Open(event: Event, cache: Cache, visits: seq<Visit>) returns (after: seq<Visit>)
    requires AllValid(visits, cache) && event.Opens?
    ensures AllValid(after, cache)
    ensures forall v :: v in after ==> v in visits || fresh(v)
    ensures if event.size == event.pin.size && 0 < event.partBytes <= IMAGE_PART_BYTES
               && event.names == CountOf(event.pin.size, event.partBytes)
            then |after| == |visits| + 1 && after[..|visits|] == visits
                 && after[|visits|].pin == event.pin && after[|visits|].partBytes == event.partBytes
            else after == visits
  {
    after := visits;
    if Layout(event.pin, event.size, event.partBytes, event.names) {
      var marker := if event.readable && event.pin.sha in cache.markers then Some(cache.markers[event.pin.sha]) else None;
      var visit := new Visit(|visits|, event.pin, event.partBytes, event.store, marker);
      after := visits + [visit];
      hide Visit.Valid;
    }
  }

  method Happen(move: Move, mover: nat, cache: Cache, visits: seq<Visit>)
    requires AllValid(visits, cache) && mover < |visits|
    modifies cache, visits
    ensures AllValid(visits, cache)
  {
    var visit := visits[mover];
    visit.Do(move, cache);
    hide Visit.Valid, Visit.Covered, Visit.Genuine, Cache.Valid;
  }

  method Disturb(event: Event, cache: Cache, visits: seq<Visit>)
    requires AllValid(visits, cache) && event.Disturbs?
    modifies cache
    ensures AllValid(visits, cache)
  {
    cache.Disturb(event.key, event.junk);
    hide Visit.Valid, Visit.Covered, Visit.Genuine, Cache.Valid;
  }

  method Next(event: Event, cache: Cache, visits: seq<Visit>) returns (after: seq<Visit>)
    requires AllValid(visits, cache)
    modifies cache, visits
    ensures AllValid(after, cache)
    ensures fresh(set v | v in after && v !in visits)
  {
    hide *;
    after := visits;
    if event.Opens? {
      after := Open(event, cache, visits);
    } else if event.Disturbs? {
      Disturb(event, cache, visits);
    } else if event.visit < |visits| {
      Happen(event.move, event.visit, cache, visits);
    }
  }

  lemma AllPromised(visits: seq<Visit>, cache: Cache)
    requires AllValid(visits, cache)
    ensures forall i :: 0 <= i < |visits| ==> Promised(visits[i], cache)
  {
    hide Promised, Visit.Valid, Visit.TidyIn, Visit.Genuine, Cache.Valid;
    forall i | 0 <= i < |visits| ensures Promised(visits[i], cache) {
      PromiseKept(visits[i], cache);
    }
  }

  method Start() returns (cache: Cache)
    ensures fresh(cache) && AllValid([], cache)
  {
    cache := new Cache();
  }

  /** Every schedule, of any number of visits and disturbances, keeps what was promised. */
  method Interleave(schedule: seq<Event>) returns (cache: Cache, visits: seq<Visit>)
    ensures AllValid(visits, cache)
    ensures forall i :: 0 <= i < |visits| ==> Promised(visits[i], cache)
  {
    hide *;
    cache := Start();
    visits := [];
    for n := 0 to |schedule|
      invariant fresh(cache) && fresh(set v | v in visits)
      invariant AllValid(visits, cache)
    {
      visits := Next(schedule[n], cache, visits);
    }
    AllPromised(visits, cache);
  }
}
