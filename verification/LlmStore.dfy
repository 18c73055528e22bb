/** A model's weights in parts (src/llm_store.ts): cut while they arrive, found only whole. */
module LlmStore {
  import opened Basics
  import opened Numerals

  /** The parts header of a cache entry: absent, a number, or something else. */
  datatype Header = NoHeader | Count(n: int) | Garbage

  datatype Stored = Stored(body: Bytes, parts: Header)

  type Entries = map<string, Stored>

  function PartKey(key: string, index: nat): string {
    key + (if '?' in key then "&" else "?") + "part=" + Decimal(index)
  }

  /** No two parts share a key, and none has the model's own. */
  lemma PartKeysDiffer(key: string, i: nat, j: nat)
    ensures PartKey(key, i) == PartKey(key, j) ==> i == j
    ensures PartKey(key, i) != key
  {
    var prefix := key + (if '?' in key then "&" else "?") + "part=";
    assert |PartKey(key, i)| > |key|;
    if PartKey(key, i) == PartKey(key, j) {
      assert PartKey(key, i)[|prefix|..] == Decimal(i);
      assert PartKey(key, j)[|prefix|..] == Decimal(j);
      DecimalInjective(i, j);
    }
  }

  function ReadParts(cache: Entries, key: string, from: nat, n: nat): Option<Bytes>
    requires from <= n
    decreases n - from
  {
    if from == n then Some([])
    else if PartKey(key, from) !in cache then None
    else After(cache[PartKey(key, from)].body, ReadParts(cache, key, from + 1, n))
  }

  /** What `readModel` finds under `key`. */
  function ModelAt(cache: Entries, key: string): Option<Bytes> {
    if key !in cache then None
    else
      match cache[key].parts
      case NoHeader => Some(cache[key].body)
      case Garbage => None
      case Count(n) => if n < 0 then None else ReadParts(cache, key, 0, n)
  }

  /** The parts that are under the first `n` part keys. */
  predicate PartsAt(cache: Entries, key: string, from: nat, parts: seq<Bytes>) {
    forall i :: 0 <= i < |parts| ==> PartIs(cache, key, from + i, parts[i])
  }

  predicate PartIs(cache: Entries, key: string, index: nat, part: Bytes) {
    PartKey(key, index) in cache && cache[PartKey(key, index)].body == part
  }

  lemma {:induction false} PartsExactly(cache: Entries, key: string, from: nat, n: nat, body: Bytes)
    requires from <= n
    ensures ReadParts(cache, key, from, n) == Some(body) <==>
            exists parts: seq<Bytes> :: |parts| == n - from && PartsAt(cache, key, from, parts) && body == Join(parts)
    decreases n - from
  {
    hide PartKey, PartsAt;
    if from == n {
      NoPartsAt(cache, key, from);
      assert forall parts: seq<Bytes> :: |parts| == 0 ==> parts == [];
      assert Join<byte>([]) == [];
    } else {
      var rest := ReadParts(cache, key, from + 1, n);
      if ReadParts(cache, key, from, n) == Some(body) {
        PartsExactly(cache, key, from + 1, n, rest.value);
        var parts: seq<Bytes> :| |parts| == n - (from + 1) && PartsAt(cache, key, from + 1, parts) && rest.value == Join(parts);
        var first := cache[PartKey(key, from)].body;
        FirstPartAt(cache, key, from, first, parts);
        assert ([first] + parts)[1..] == parts;
      }
      if parts: seq<Bytes> :| |parts| == n - from && PartsAt(cache, key, from, parts) && body == Join(parts) {
        FirstPartAt(cache, key, from, parts[0], parts[1..]);
        assert [parts[0]] + parts[1..] == parts;
        PartsExactly(cache, key, from + 1, n, Join(parts[1..]));
      }
    }
  }

  lemma NoPartsAt(cache: Entries, key: string, from: nat)
    ensures PartsAt(cache, key, from, [])
  {
  }

  lemma FirstPartAt(cache: Entries, key: string, from: nat, first: Bytes, parts: seq<Bytes>)
    ensures PartsAt(cache, key, from, [first] + parts) <==>
            PartIs(cache, key, from, first) && PartsAt(cache, key, from + 1, parts)
  {
    hide PartIs;
    var all := [first] + parts;
    if PartsAt(cache, key, from, all) {
      assert all[0] == first && from + 0 == from;
      forall i | 0 <= i < |parts|
        ensures PartIs(cache, key, from + 1 + i, parts[i])
      {
        assert all[i + 1] == parts[i] && from + (i + 1) == from + 1 + i;
      }
    }
    if PartIs(cache, key, from, first) && PartsAt(cache, key, from + 1, parts) {
      forall i | 0 <= i < |all|
        ensures PartIs(cache, key, from + i, all[i])
      {
        if i == 0 {
          assert all[0] == first && from + 0 == from;
        } else {
          assert all[i] == parts[i - 1] && from + 1 + (i - 1) == from + i;
        }
      }
    }
  }

  /** A model is found exactly when its entry is there and holds it, or says how many parts
      there are and every one of those is there: then it is the parts joined. */
  lemma ModelExactly(cache: Entries, key: string, body: Bytes)
    ensures ModelAt(cache, key) == Some(body) <==>
            && key in cache
            && (|| (cache[key].parts == NoHeader && body == cache[key].body)
                || (cache[key].parts.Count? && exists parts: seq<Bytes> ::
                      |parts| == cache[key].parts.n && PartsAt(cache, key, 0, parts) && body == Join(parts)))
  {
    if key in cache && cache[key].parts.Count? && cache[key].parts.n >= 0 {
      PartsExactly(cache, key, 0, cache[key].parts.n, body);
    }
    hide ReadParts, PartsAt, Join;
  }

  method ReadModel(cache: Entries, key: string) returns (model: Option<Bytes>)
    ensures model == ModelAt(cache, key)
  {
    if key !in cache {
      return None;
    }
    var head := cache[key];
    if head.parts.NoHeader? {
      return Some(head.body);
    }
    if head.parts.Garbage? || head.parts.n < 0 {
      return None;
    }
    var n: nat := head.parts.n;
    var parts: seq<Bytes> := [];
    AfterNothing(ReadParts(cache, key, 0, n));
    for index := 0 to n
      invariant ModelAt(cache, key) == After(Join(parts), ReadParts(cache, key, index, n))
    {
      hide ModelAt, PartKey, Join, After;
      if PartKey(key, index) !in cache {
        NoneAfter(Join(parts));
        return None;
      }
      var part := cache[PartKey(key, index)].body;
      JoinAppend(parts, [part]);
      JoinOne(part);
      AfterOne(Join(parts), part, ReadParts(cache, key, index + 1, n));
      assert ReadParts(cache, key, index, n) == After(part, ReadParts(cache, key, index + 1, n)) by { hide *; PartThen(cache, key, index, n); }
      parts := parts + [part];
    }
    assert Join(parts) + [] == Join(parts);
    return Some(Join(parts));
  }

  /** `first`, then what else was read, if all of it was. */
  function After(first: Bytes, rest: Option<Bytes>): Option<Bytes> {
    match rest
    case None => None
    case Some(more) => Some(first + more)
  }

  lemma AfterNothing(r: Option<Bytes>)
    ensures After(Join([]), r) == r
  {
    assert r.Some? ==> [] + r.value == r.value;
  }

  lemma NoneAfter(first: Bytes)
    ensures After(first, None) == None
  {
  }

  lemma AfterOne(a: Bytes, b: Bytes, r: Option<Bytes>)
    ensures After(a, After(b, r)) == After(a + b, r)
  {
    assert r.Some? ==> a + (b + r.value) == a + b + r.value;
  }

  lemma PartThen(cache: Entries, key: string, index: nat, n: nat)
    requires index < n && PartKey(key, index) in cache
    ensures ReadParts(cache, key, index, n) == After(cache[PartKey(key, index)].body, ReadParts(cache, key, index + 1, n))
  {
  }

  /** The first of `parts` are in the cache, each under its own key. */
  predicate Holds(cache: Entries, key: string, parts: seq<Bytes>) {
    forall i :: 0 <= i < |parts| ==> PartKey(key, i) in cache && cache[PartKey(key, i)] == Stored(parts[i], NoHeader)
  }

  lemma {:induction false} HeldIsRead(cache: Entries, key: string, parts: seq<Bytes>, from: nat)
    requires from <= |parts| && Holds(cache, key, parts)
    ensures ReadParts(cache, key, from, |parts|) == Some(Join(parts[from..]))
    decreases |parts| - from
  {
    if from < |parts| {
      HeldIsRead(cache, key, parts, from + 1);
      assert parts[from..][1..] == parts[from + 1..];
    }
  }

  /** The keys a download of `n` parts uses. */
  function Own(key: string, n: nat): set<string> {
    {key} + set i | 0 <= i < n :: PartKey(key, i)
  }

  /** In none of these contents does `readModel` find a model. */
  predicate NeverFound(states: seq<Entries>, key: string) {
    forall i :: 0 <= i < |states| ==> ModelAt(states[i], key) == None
  }

  /** What `readModel` finds, if anything, is `body`. */
  predicate Findable(cache: Entries, key: string, body: Bytes) {
    ModelAt(cache, key) == None || ModelAt(cache, key) == Some(body)
  }

  /** In none of these contents does `readModel` find anything but `body`. */
  predicate NeverPartial(states: seq<Entries>, key: string, body: Bytes) {
    forall i :: 0 <= i < |states| ==> Findable(states[i], key, body)
  }

  /** Every part but the last is `partBytes` long, and the last is no longer and not empty. */
  predicate CutEvenly(parts: seq<Bytes>, partBytes: nat) {
    forall i :: 0 <= i < |parts| ==>
      0 < |parts[i]| <= partBytes && (i < |parts| - 1 ==> |parts[i]| == partBytes)
  }

  /** `storeModel`'s cache and its own variables. `states` is every content the cache has
      had while it ran. */
  class ModelWriter {
    const key: string
    var entries: Entries
    var pending: seq<Bytes>
    var pendingBytes: nat
    var parts: nat
    var total: nat
    ghost var states: seq<Entries>
    ghost var stored: seq<Bytes>
    ghost var deleteFailed: bool

    constructor (key: string, entries: Entries)
      ensures this.key == key && this.entries == entries && states == [entries] && !deleteFailed
      ensures pending == [] && pendingBytes == 0 && parts == 0 && total == 0 && stored == []
    {
      this.key, this.entries := key, entries;
      pending, pendingBytes, parts, total := [], 0, 0, 0;
      states, stored, deleteFailed := [entries], [], false;
    }

    /** `cache.put`. A put that fails may still have left its entry. */
    method Put(name: string, value: Stored) returns (ok: bool)
      modifies this`entries, this`states
      ensures entries == old(entries)[name := value] || (!ok && entries == old(entries))
      ensures states == old(states) + [entries]
      ensures states[..|states| - 1] == old(states)
    {
      ok := *;
      var kept: bool := *;
      if ok || kept {
        entries := entries[name := value];
      }
      states := states + [entries];
    }

    method Delete(name: string)
      modifies this`entries, this`states, this`deleteFailed
      ensures !deleteFailed ==> !old(deleteFailed) && entries == old(entries) - {name}
      ensures entries == old(entries) - {name} || entries == old(entries)
      ensures states == old(states) + [entries]
    {
      var ok: bool := *;
      if ok {
        entries := entries - {name};
      } else {
        deleteFailed := true;
      }
      states := states + [entries];
    }

    /** What is read is stored or pending, in order; no head names the parts yet, and
        nothing else in the cache is touched. */
    ghost predicate Valid(read: Bytes, before: Entries)
      reads this
    {
      && pendingBytes == |Join(pending)| && parts == |stored| && total == |read|
      && Join(stored) + Join(pending) == read
      && Holds(entries, key, stored)
      && key !in entries
      && entries - Own(key, parts) == before - Own(key, parts)
      && NeverFound(states, key)
    }

    /** Stopped part way: nothing touched but the head and parts up to the current one. */
    ghost predicate Stopped(before: Entries)
      reads this
    {
      entries - Own(key, parts + 1) == before - Own(key, parts + 1)
    }

    /** `flush`'s cutting loop: exactly the first `bytes` pending, however they are chunked. */
    method Cut(bytes: nat) returns (out: Bytes)
      requires bytes <= |Join(pending)|
      modifies this`pending
      ensures |out| == bytes && out + Join(pending) == old(Join(pending))
    {
      var chunks: seq<Bytes> := [];
      var need := bytes;
      while need > 0
        invariant 0 <= need <= |Join(pending)| && |Join(chunks)| + need == bytes
        invariant Join(chunks) + Join(pending) == old(Join(pending))
        decreases |pending|, need
      {
        var chunk := pending[0];
        ghost var rest := pending[1..];
        if |chunk| <= need {
          JoinAppend(chunks, [chunk]);
          JoinOne(chunk);
          chunks := chunks + [chunk];
          pending := pending[1..];
          need := need - |chunk|;
        } else {
          JoinAppend(chunks, [chunk[..need]]);
          JoinOne(chunk[..need]);
          chunks := chunks + [chunk[..need]];
          assert chunk == chunk[..need] + chunk[need..];
          pending := pending[0 := chunk[need..]];
          assert pending[1..] == rest;
          need := 0;
        }
      }
      out := Join(chunks);
    }

    method Flush(bytes: nat, ghost read: Bytes, ghost before: Entries) returns (ok: bool)
      requires Valid(read, before) && bytes <= pendingBytes
      modifies this
      ensures deleteFailed == old(deleteFailed)
      ensures !ok ==> Stopped(before) && key !in entries && NeverFound(states, key)
      ensures ok ==> Valid(read, before) && pendingBytes == old(pendingBytes) - bytes
      ensures ok ==> exists part :: |part| == bytes && stored == old(stored) + [part]
    {
      var out := Cut(bytes);
      pendingBytes := pendingBytes - bytes;
      ghost var was := entries;
      var value := Stored(out, NoHeader);
      FlushedOne(was, key, stored, out, Join(pending), read, before);
      hide Join, Holds, PartKey, Own, NeverFound;
      ok := Put(PartKey(key, parts), value);
      StillNotFound(old(states), entries, key);
      if ok {
        stored := stored + [out];
        parts := parts + 1;
      }
    }

    /** The `catch`: every part up to the current one goes, and the head. Until the head does,
        the whole body is found or nothing is. */
    method Forget(ghost before: Entries, ghost body: Bytes)
      requires Stopped(before) && Findable(entries, key, body) && NeverPartial(states, key, body)
      modifies this
      ensures !deleteFailed ==> entries == before - Own(key, parts + 1)
      ensures parts == old(parts) && NeverPartial(states, key, body)
    {
      ghost var start := entries;
      ghost var gone: set<string> := {};
      hide Findable, NeverPartial;
      for index := 0 to parts + 1
        invariant parts == old(parts) && Within(entries, start) && NeverPartial(states, key, body)
        invariant gone == set i | 0 <= i < index :: PartKey(key, i)
        invariant !deleteFailed ==> entries == start - gone
      {
        DeleteOne(PartKey(key, index), start, body);
        assert start - gone - {PartKey(key, index)} == start - (gone + {PartKey(key, index)});
        gone := gone + {PartKey(key, index)};
      }
      DeleteOne(key, start, body);
      assert start - gone - {key} == start - Own(key, parts + 1);
    }

    method DeleteOne(name: string, ghost start: Entries, ghost body: Bytes)
      requires Within(entries, start) && Findable(start, key, body) && NeverPartial(states, key, body)
      modifies this`entries, this`states, this`deleteFailed
      ensures Within(entries, start) && NeverPartial(states, key, body)
      ensures !deleteFailed ==> !old(deleteFailed) && entries == old(entries) - {name}
    {
      ghost var was := states;
      Delete(name);
      FewerFound(start, entries, key, body);
      hide Findable;
    }

    /** One chunk read, and as many whole parts flushed as there now are. */
    method Add(chunk: Bytes, partBytes: nat, ghost read: Bytes, ghost before: Entries) returns (ok: bool)
      requires partBytes > 0 && Valid(read, before) && AllLong(stored, partBytes)
      modifies this
      ensures deleteFailed == old(deleteFailed)
      ensures !ok ==> Stopped(before) && key !in entries && NeverFound(states, key)
      ensures ok ==> Valid(read + chunk, before) && AllLong(stored, partBytes) && pendingBytes < partBytes
    {
      JoinAppend(pending, [chunk]);
      JoinOne(chunk);
      assert Join(stored) + Join(pending) + chunk == Join(stored) + (Join(pending) + chunk);
      pending := pending + [chunk];
      pendingBytes := pendingBytes + |chunk|;
      total := total + |chunk|;
      hide Join, Holds;
      while pendingBytes >= partBytes
        invariant Valid(read + chunk, before) && deleteFailed == old(deleteFailed)
        invariant AllLong(stored, partBytes)
        decreases pendingBytes
      {
        ok := Flush(partBytes, read + chunk, before);
        if !ok {
          return false;
        }
      }
      return true;
    }

    /** `storeModel` of a body that arrives as `chunks`; a read may fail at any of them. */
    method Store(chunks: seq<Bytes>, partBytes: nat) returns (r: Option<nat>)
      requires partBytes > 0 && key !in entries && !deleteFailed
      requires states == [entries] && pending == [] && pendingBytes == 0 && parts == 0 && total == 0 && stored == []
      modifies this
      ensures r.Some? ==> ModelAt(entries, key) == Some(Join(chunks)) && r.value == |Join(chunks)|
      ensures r.Some? ==> CutEvenly(stored, partBytes) && Join(stored) == Join(chunks)
      ensures r.Some? ==> Holds(entries, key, stored) && entries[key] == Stored([], Count(|stored|))
      ensures r.Some? ==> states != [] && NeverFound(states[..|states| - 1], key)
      ensures NeverPartial(states, key, Join(chunks))
      ensures r.None? && !deleteFailed ==> entries == old(entries) - Own(key, parts + 1)
    {
      ghost var before := entries;
      var fine := true;
      for i := 0 to |chunks|
        invariant Valid(Join(chunks[..i]), before) && !deleteFailed
        invariant AllLong(stored, partBytes) && pendingBytes < partBytes
      {
        hide Holds;
        fine := *;
        if !fine {
          StoppedThere(before);
          NothingFound(states, entries, key, Join(chunks));
          Forget(before, Join(chunks));
          return None;
        }
        assert chunks[..i + 1] == chunks[..i] + [chunks[i]];
        JoinAppend(chunks[..i], [chunks[i]]);
        JoinOne(chunks[i]);
        fine := Add(chunks[i], partBytes, Join(chunks[..i]), before);
        if !fine {
          NothingFound(states, entries, key, Join(chunks));
          Forget(before, Join(chunks));
          return None;
        }
      }
      assert chunks[..|chunks|] == chunks;
      fine := Finish(partBytes, Join(chunks), before);
      if !fine {
        Forget(before, Join(chunks));
        return None;
      }
      return Some(total);
    }

    /** The last, shorter part, then the head. */
    method Finish(partBytes: nat, ghost read: Bytes, ghost before: Entries) returns (ok: bool)
      requires Valid(read, before) && AllLong(stored, partBytes) && pendingBytes < partBytes
      modifies this
      ensures deleteFailed == old(deleteFailed)
      ensures Findable(entries, key, read) && NeverPartial(states, key, read)
      ensures !ok ==> Stopped(before)
      ensures ok ==> ModelAt(entries, key) == Some(read) && total == |read|
      ensures ok ==> CutEvenly(stored, partBytes) && Join(stored) == read
      ensures ok ==> Holds(entries, key, stored) && key in entries && entries[key] == Stored([], Count(|stored|))
      ensures ok ==> states != [] && NeverFound(states[..|states| - 1], key)
    {
      hide Holds;
      if pendingBytes > 0 {
        ok := Flush(pendingBytes, read, before);
        if !ok {
          NothingFound(states, entries, key, read);
          return;
        }
      }
      NothingFound(states, entries, key, read);
      assert Join(stored) + Join(pending) == Join(stored);
      ghost var was := entries;
      hide Join, ModelAt, NeverFound;
      ok := Put(key, Stored([], Count(parts)));
      OnePartMore(key, parts, before, was, key, Stored([], Count(parts)));
      if key in entries {
        StillHeldHead(was, key, stored, Stored([], Count(parts)));
        HeadFindsParts(entries, key, stored);
      }
    }

    lemma StoppedThere(before: Entries)
      requires entries - Own(key, parts) == before - Own(key, parts)
      ensures Stopped(before)
    {
      MoreOwn(key, parts, entries, before);
    }
  }

  predicate Within(now: Entries, start: Entries) {
    forall k :: k in now ==> k in start && now[k] == start[k]
  }

  lemma {:induction false} FewerRead(start: Entries, now: Entries, key: string, from: nat, n: nat)
    requires Within(now, start) && from <= n
    ensures ReadParts(now, key, from, n).Some? ==> ReadParts(now, key, from, n) == ReadParts(start, key, from, n)
    decreases n - from
  {
    hide PartKey;
    if from < n {
      FewerRead(start, now, key, from + 1, n);
    }
  }

  /** What is found when entries are gone is what was, or nothing. */
  lemma FewerFound(start: Entries, now: Entries, key: string, body: Bytes)
    requires Within(now, start) && Findable(start, key, body)
    ensures Findable(now, key, body)
  {
    hide ReadParts;
    if key in now && now[key].parts.Count? && now[key].parts.n >= 0 {
      FewerRead(start, now, key, 0, now[key].parts.n);
    }
  }

  lemma NothingFound(states: seq<Entries>, entries: Entries, key: string, body: Bytes)
    requires NeverFound(states, key) && key !in entries
    ensures NeverPartial(states, key, body) && Findable(entries, key, body)
  {
    hide ReadParts;
  }

  /** Of the parts an earlier download left, a failed one leaves exactly those at indexes it
      did not reach. */
  lemma LeftoversStay(before: Entries, key: string, parts: nat, i: nat)
    ensures PartKey(key, i) in before - Own(key, parts + 1) <==> PartKey(key, i) in before && i > parts
  {
    forall j | 0 <= j <= parts ensures PartKey(key, j) == PartKey(key, i) <==> i == j {
      PartKeysDiffer(key, i, j);
    }
    PartKeysDiffer(key, i, i);
    hide PartKey;
  }

  predicate AllLong(parts: seq<Bytes>, partBytes: nat) {
    forall i :: 0 <= i < |parts| ==> |parts[i]| == partBytes
  }

  /** What storing the next part does to the parts held, and to nothing else. */
  lemma FlushedOne(was: Entries, key: string, stored: seq<Bytes>, out: Bytes, left: Bytes, read: Bytes, before: Entries)
    requires Holds(was, key, stored) && Join(stored) + (out + left) == read && key !in was
    requires was - Own(key, |stored|) == before - Own(key, |stored|)
    ensures var now := was[PartKey(key, |stored|) := Stored(out, NoHeader)];
            && Holds(now, key, stored + [out]) && Join(stored + [out]) + left == read && key !in now
            && now - Own(key, |stored| + 1) == before - Own(key, |stored| + 1)
    ensures was - Own(key, |stored| + 1) == before - Own(key, |stored| + 1)
  {
    hide *;
    PartKeysDiffer(key, |stored|, |stored|);
    PartIsOwn(key, |stored|);
    OnePartMore(key, |stored|, before, was, PartKey(key, |stored|), Stored(out, NoHeader));
    StillHeld(was, key, stored, out);
    JoinedOneMore(stored, out, left);
  }

  lemma JoinedOneMore(stored: seq<Bytes>, out: Bytes, left: Bytes)
    ensures Join(stored + [out]) + left == Join(stored) + (out + left)
  {
    JoinAppend(stored, [out]);
    JoinOne(out);
  }

  lemma PartIsOwn(key: string, n: nat)
    ensures PartKey(key, n) in Own(key, n + 1) && key in Own(key, n + 1)
  {
  }

  lemma StillNotFound(states: seq<Entries>, cache: Entries, key: string)
    requires NeverFound(states, key) && key !in cache
    ensures NeverFound(states + [cache], key)
  {
  }

  lemma MoreOwn(key: string, n: nat, a: Entries, b: Entries)
    requires a - Own(key, n) == b - Own(key, n)
    ensures a - Own(key, n + 1) == b - Own(key, n + 1)
  {
    assert a - Own(key, n + 1) == a - Own(key, n) - Own(key, n + 1);
    assert b - Own(key, n + 1) == b - Own(key, n) - Own(key, n + 1);
  }

  /** Putting one more of its own entries touches nothing else. */
  lemma OnePartMore(key: string, n: nat, before: Entries, was: Entries, name: string, value: Stored)
    requires was - Own(key, n) == before - Own(key, n)
    requires name in Own(key, n + 1)
    ensures was - Own(key, n + 1) == before - Own(key, n + 1)
    ensures was[name := value] - Own(key, n + 1) == before - Own(key, n + 1)
  {
    MoreOwn(key, n, was, before);
    assert was[name := value] - Own(key, n + 1) == was - Own(key, n + 1);
  }

  /** A head that counts the parts held finds them whole. */
  lemma HeadFindsParts(cache: Entries, key: string, parts: seq<Bytes>)
    requires Holds(cache, key, parts) && key in cache && cache[key] == Stored([], Count(|parts|))
    ensures ModelAt(cache, key) == Some(Join(parts))
  {
    HeldIsRead(cache, key, parts, 0);
    assert parts[0..] == parts;
  }

  lemma StillHeld(was: Entries, key: string, parts: seq<Bytes>, part: Bytes)
    requires Holds(was, key, parts)
    ensures Holds(was[PartKey(key, |parts|) := Stored(part, NoHeader)], key, parts + [part])
  {
    forall i | 0 <= i < |parts|
      ensures PartKey(key, i) != PartKey(key, |parts|)
    {
      PartKeysDiffer(key, i, |parts|);
    }
  }

  lemma StillHeldHead(was: Entries, key: string, parts: seq<Bytes>, head: Stored)
    requires Holds(was, key, parts)
    ensures Holds(was[key := head], key, parts)
  {
    forall i | 0 <= i < |parts|
      ensures PartKey(key, i) != key
    {
      PartKeysDiffer(key, i, i);
    }
  }
}
