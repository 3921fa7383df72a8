/**
 * The poller: an interest set of (descriptor, poll type) entries kept as two aligned vectors,
 * the `pollfd` records handed to the OS wait and the poll type of each, and the derivation of
 * per-socket statuses from the readiness bits the OS wait reports.
 *
 * The OS wait is an input: `Poll` receives its return value and the `revents` it wrote into each
 * entry. Blocking and timing are not modelled; the millisecond timeout handed to the OS is.
 */
module Poller {
  import opened Common

  datatype PollType = PollConnect | PollRead | PollReadWrite

  datatype PollStatus = ConnectionSucceeded | ConnectionFailed | ReadyToRead | ReadyToWrite

  datatype PollResult = PollResult(id: SocketId, status: PollStatus)

  /** `pollfd`: descriptor, requested events and returned events (`short` bit sets). */
  datatype PollEntry = PollEntry(fd: SocketId, events: bv16, revents: bv16)

  /** The failure of the OS wait. */
  datatype PollError = PollError

  const POLLIN: bv16 := 0x1
  const POLLOUT: bv16 := 0x4

  /** `map_poll_type`: the readiness bits each poll type asks the OS to watch. */
  function MapPollType(t: PollType): (events: bv16)
    ensures t == PollConnect <==> events == POLLOUT
    ensures t == PollRead <==> events == POLLIN
    ensures t == PollReadWrite <==> events == POLLIN | POLLOUT
    ensures (events & POLLIN != 0) <==> t != PollConnect
    ensures (events & POLLOUT != 0) <==> t != PollRead
  {
    match t
    case PollConnect => POLLOUT
    case PollRead => POLLIN
    case PollReadWrite => POLLIN | POLLOUT
  }

  // ---------------------------------------------------------------------------
  // The interest set

  /** Entries and poll types are aligned, and each entry asks for what its poll type maps to. */
  predicate Aligned(es: seq<PollEntry>, ts: seq<PollType>)
  {
    |es| == |ts| && forall i :: 0 <= i < |es| ==> es[i].events == MapPollType(ts[i])
  }

  /** The (descriptor, poll type) pairs of the interest set, in entry order. */
  function Interests(es: seq<PollEntry>, ts: seq<PollType>): (r: seq<(SocketId, PollType)>)
    requires |es| == |ts|
    ensures |r| == |es|
    ensures forall i :: 0 <= i < |es| ==> r[i] == (es[i].fd, ts[i])
  {
    seq(|es|, i requires 0 <= i < |es| => (es[i].fd, ts[i]))
  }

  /** The position of the first entry for descriptor `id`, if there is one. */
  function FirstIndex(es: seq<PollEntry>, id: SocketId): (k: Option<nat>)
    ensures k.Some? ==> k.value < |es| && es[k.value].fd == id
    ensures k.Some? ==> forall j :: 0 <= j < k.value ==> es[j].fd != id
    ensures k.None? ==> forall j :: 0 <= j < |es| ==> es[j].fd != id
  {
    if es == [] then None
    else if es[0].fd == id then Some(0)
    else match FirstIndex(es[1..], id)
      case None => None
      case Some(k) => Some(k + 1)
  }

  /** Removal of position `k` by moving the last element into it and dropping the last. */
  function SwapRemove<T>(s: seq<T>, k: nat): (r: seq<T>)
    requires k < |s|
    ensures |r| == |s| - 1
    ensures forall j :: 0 <= j < |r| && j != k ==> r[j] == s[j]
    ensures k < |r| ==> r[k] == s[|s| - 1]
  {
    s[k := s[|s| - 1]][..|s| - 1]
  }

  /** Swap-with-last removal loses exactly the removed element. */
  lemma SwapRemoveMultiset<T>(s: seq<T>, k: nat)
    requires k < |s|
    ensures multiset(SwapRemove(s, k)) + multiset{s[k]} == multiset(s)
  {
    var n := |s| - 1;
    if k == n {
      assert s == s[..n] + [s[n]];
    } else {
      var front, middle := s[..k], s[k + 1..n];
      assert multiset(s) == multiset(front) + multiset{s[k]} + multiset(middle) + multiset{s[n]} by {
        assert s == front + [s[k]] + middle + [s[n]];
      }
      assert multiset(SwapRemove(s, k)) == multiset(front) + multiset{s[n]} + multiset(middle) by {
        assert SwapRemove(s, k) == front + [s[n]] + middle;
      }
    }
  }

  /** Removing the same position from both vectors removes that (descriptor, type) pair. */
  lemma SwapRemoveInterests(es: seq<PollEntry>, ts: seq<PollType>, k: nat)
    requires |es| == |ts| && k < |es|
    ensures Interests(SwapRemove(es, k), SwapRemove(ts, k)) == SwapRemove(Interests(es, ts), k)
    ensures multiset(Interests(SwapRemove(es, k), SwapRemove(ts, k))) + multiset{(es[k].fd, ts[k])}
         == multiset(Interests(es, ts))
  {
    SwapRemoveMultiset(Interests(es, ts), k);
  }

  /** Removal keeps the vectors aligned. */
  lemma SwapRemoveAligned(es: seq<PollEntry>, ts: seq<PollType>, k: nat)
    requires Aligned(es, ts) && k < |es|
    ensures Aligned(SwapRemove(es, k), SwapRemove(ts, k))
  {
  }

  /**
   * The interest set does not keep descriptors unique: after two additions of one descriptor,
   * a removal of it leaves the other entry in place.
   */
  lemma RemoveLeavesDuplicate(es: seq<PollEntry>, id: SocketId, i: nat, j: nat)
    requires i < j < |es| && es[i].fd == id && es[j].fd == id
    ensures FirstIndex(es, id).Some?
    ensures FirstIndex(SwapRemove(es, FirstIndex(es, id).value), id).Some?
  {
    var k := FirstIndex(es, id).value;
    var r := SwapRemove(es, k);
    if j < |r| {
      assert r[j].fd == id;
    } else {
      assert r[k].fd == id;
    }
  }

  // ---------------------------------------------------------------------------
  // Event derivation

  /** The results one entry yields for its poll type; for read_write, write before read. */
  function EntryResults(e: PollEntry, t: PollType): (rs: seq<PollResult>)
    ensures |rs| <= 2
  {
    var out := (e.revents & POLLOUT) != 0;
    var inp := (e.revents & POLLIN) != 0;
    match t
    case PollConnect => if out then [PollResult(e.fd, ConnectionSucceeded)] else []
    case PollReadWrite =>
      if out && inp then [PollResult(e.fd, ReadyToWrite), PollResult(e.fd, ReadyToRead)]
      else if out then [PollResult(e.fd, ReadyToWrite)]
      else if inp then [PollResult(e.fd, ReadyToRead)]
      else []
    case PollRead => if inp then [PollResult(e.fd, ReadyToRead)] else []
  }

  /** The concatenation of a sequence of sequences, in order. */
  function Flatten<T>(xss: seq<seq<T>>): seq<T>
  {
    if xss == [] then [] else Flatten(xss[..|xss| - 1]) + xss[|xss| - 1]
  }

  lemma FlattenSnoc<T>(xss: seq<seq<T>>, xs: seq<T>)
    ensures Flatten(xss + [xs]) == Flatten(xss) + xs
  {
    assert (xss + [xs])[..|xss|] == xss;
  }

  lemma {:induction false} FlattenAppend<T>(a: seq<seq<T>>, b: seq<seq<T>>)
    ensures Flatten(a + b) == Flatten(a) + Flatten(b)
    decreases |b|
  {
    if b == [] {
      assert a + b == a;
    } else {
      var n := |b| - 1;
      assert a + b == (a + b[..n]) + [b[n]];
      assert b == b[..n] + [b[n]];
      FlattenSnoc(a + b[..n], b[n]);
      FlattenSnoc(b[..n], b[n]);
      FlattenAppend(a, b[..n]);
    }
  }

  lemma {:induction false} FlattenMembership<T>(xss: seq<seq<T>>, x: T)
    ensures x in Flatten(xss) <==> exists i :: 0 <= i < |xss| && x in xss[i]
    decreases |xss|
  {
    if xss != [] {
      var n := |xss| - 1;
      FlattenMembership(xss[..n], x);
      if x in Flatten(xss) && x !in xss[n] {
        var i :| 0 <= i < n && x in xss[..n][i];
        assert xss[i] == xss[..n][i];
      }
      if x !in Flatten(xss) {
        forall i | 0 <= i < n
          ensures x !in xss[i]
        {
          assert xss[i] == xss[..n][i];
        }
      }
    }
  }

  lemma {:induction false} FlattenLength<T>(xss: seq<seq<T>>, k: nat)
    requires forall i :: 0 <= i < |xss| ==> |xss[i]| <= k
    ensures |Flatten(xss)| <= k * |xss|
    decreases |xss|
  {
    if xss != [] {
      var n := |xss| - 1;
      assert forall i :: 0 <= i < n ==> xss[..n][i] == xss[i];
      FlattenLength(xss[..n], k);
      assert k * n + k == k * |xss|;
    }
  }

  /** The results of each entry, entry by entry. */
  function PerEntry(es: seq<PollEntry>, ts: seq<PollType>): (r: seq<seq<PollResult>>)
    requires |es| == |ts|
    ensures |r| == |es|
    ensures forall i :: 0 <= i < |es| ==> r[i] == EntryResults(es[i], ts[i])
  {
    seq(|es|, i requires 0 <= i < |es| => EntryResults(es[i], ts[i]))
  }

  /** The results of all entries, in entry order. */
  function Derive(es: seq<PollEntry>, ts: seq<PollType>): seq<PollResult>
    requires |es| == |ts|
  {
    Flatten(PerEntry(es, ts))
  }

  /** Reference definition: the readiness bits under which a poll type reports a status. */
  predicate Reports(revents: bv16, t: PollType, s: PollStatus)
  {
    || (s == ConnectionSucceeded && t == PollConnect && (revents & POLLOUT) != 0)
    || (s == ReadyToWrite && t == PollReadWrite && (revents & POLLOUT) != 0)
    || (s == ReadyToRead && t != PollConnect && (revents & POLLIN) != 0)
  }

  /** A status is only ever reported for a readiness bit the entry's poll type asked for. */
  lemma ReportsOnlyRequested(revents: bv16, t: PollType, s: PollStatus)
    requires Reports(revents, t, s)
    ensures s == ReadyToRead ==> (MapPollType(t) & POLLIN) != 0
    ensures s != ReadyToRead ==> (MapPollType(t) & POLLOUT) != 0
    ensures s != ConnectionFailed
  {
  }

  lemma EntryResultsMembership(e: PollEntry, t: PollType, r: PollResult)
    ensures r in EntryResults(e, t) <==> r.id == e.fd && Reports(e.revents, t, r.status)
  {
  }

  /** A result is derived exactly when some entry for its descriptor reports its status. */
  lemma DeriveMembership(es: seq<PollEntry>, ts: seq<PollType>, r: PollResult)
    requires |es| == |ts|
    ensures r in Derive(es, ts) <==>
      exists i :: 0 <= i < |es| && es[i].fd == r.id && Reports(es[i].revents, ts[i], r.status)
  {
    var per := PerEntry(es, ts);
    FlattenMembership(per, r);
    forall i | 0 <= i < |es|
      ensures r in per[i] <==> es[i].fd == r.id && Reports(es[i].revents, ts[i], r.status)
    {
      EntryResultsMembership(es[i], ts[i], r);
    }
  }

  /** At most two results per entry. */
  lemma DeriveBound(es: seq<PollEntry>, ts: seq<PollType>)
    requires |es| == |ts|
    ensures |Derive(es, ts)| <= 2 * |es|
  {
    FlattenLength(PerEntry(es, ts), 2);
  }

  /** The connection_failed status is documented but never derived. */
  lemma NeverConnectionFailed(es: seq<PollEntry>, ts: seq<PollType>, id: SocketId)
    requires |es| == |ts|
    ensures PollResult(id, ConnectionFailed) !in Derive(es, ts)
  {
    DeriveMembership(es, ts, PollResult(id, ConnectionFailed));
  }

  /** Results follow entry order: the results of a split interest set are those of its parts, in order. */
  lemma DeriveAppend(es1: seq<PollEntry>, ts1: seq<PollType>, es2: seq<PollEntry>, ts2: seq<PollType>)
    requires |es1| == |ts1| && |es2| == |ts2|
    ensures Derive(es1 + es2, ts1 + ts2) == Derive(es1, ts1) + Derive(es2, ts2)
  {
    assert PerEntry(es1 + es2, ts1 + ts2) == PerEntry(es1, ts1) + PerEntry(es2, ts2);
    FlattenAppend(PerEntry(es1, ts1), PerEntry(es2, ts2));
  }

  /** Extending the interest set by one entry extends the results by that entry's results. */
  lemma DeriveSnoc(es: seq<PollEntry>, ts: seq<PollType>, e: PollEntry, t: PollType)
    requires |es| == |ts|
    ensures Derive(es + [e], ts + [t]) == Derive(es, ts) + EntryResults(e, t)
  {
    assert PerEntry(es + [e], ts + [t]) == PerEntry(es, ts) + [EntryResults(e, t)];
    FlattenSnoc(PerEntry(es, ts), EntryResults(e, t));
  }

  /** A read_write entry ready both ways reports writing first, then reading. */
  lemma ReadWriteOrder(e: PollEntry)
    requires (e.revents & POLLOUT) != 0 && (e.revents & POLLIN) != 0
    ensures EntryResults(e, PollReadWrite) == [PollResult(e.fd, ReadyToWrite), PollResult(e.fd, ReadyToRead)]
  {
  }

  /** The entries after the OS wait wrote its readiness bits into them. */
  function WithRevents(es: seq<PollEntry>, revents: seq<bv16>): (r: seq<PollEntry>)
    requires |revents| == |es|
    ensures |r| == |es|
    ensures forall i :: 0 <= i < |es| ==> r[i] == PollEntry(es[i].fd, es[i].events, revents[i])
  {
    seq(|es|, i requires 0 <= i < |es| => es[i].(revents := revents[i]))
  }

  /** The readiness bits the OS wait writes leave the requested events alone. */
  lemma WithReventsAligned(es: seq<PollEntry>, ts: seq<PollType>, revents: seq<bv16>)
    requires Aligned(es, ts) && |revents| == |es|
    ensures Aligned(WithRevents(es, revents), ts)
  {
  }

  /**
   * The derivation loop of `poll`: entry by entry, the statuses its poll type reports, write
   * before read for read_write.
   */
  method CollectResults(es: seq<PollEntry>, ts: seq<PollType>) returns (found: seq<PollResult>)
    requires |es| == |ts|
    ensures found == Derive(es, ts)
  {
    found := [];
    var ix := 0;
    while ix < |es|
      invariant 0 <= ix <= |es|
      invariant found == Derive(es[..ix], ts[..ix])
    {
      var entry := es[ix];
      ghost var before := found;
      match ts[ix] {
        case PollConnect =>
          if (entry.revents & POLLOUT) != 0 {
            found := found + [PollResult(entry.fd, ConnectionSucceeded)];
          }
        case PollReadWrite =>
          if (entry.revents & POLLOUT) != 0 {
            found := found + [PollResult(entry.fd, ReadyToWrite)];
          }
          if (entry.revents & POLLIN) != 0 {
            found := found + [PollResult(entry.fd, ReadyToRead)];
          }
        case PollRead =>
          if (entry.revents & POLLIN) != 0 {
            found := found + [PollResult(entry.fd, ReadyToRead)];
          }
      }
      assert found == before + EntryResults(entry, ts[ix]);
      assert es[..ix + 1] == es[..ix] + [entry];
      assert ts[..ix + 1] == ts[..ix] + [ts[ix]];
      DeriveSnoc(es[..ix], ts[..ix], entry, ts[ix]);
      ix := ix + 1;
    }
    assert es[..ix] == es && ts[..ix] == ts;
  }

  // ---------------------------------------------------------------------------
  // The timeout handed to the OS wait

  const INT64_MIN: int := -0x8000_0000_0000_0000
  const INT64_MAX: int := 0x7fff_ffff_ffff_ffff
  const INT32_MIN: int := -0x8000_0000
  const INT32_MAX: int := 0x7fff_ffff
  const NS_PER_MS: int := 1_000_000

  /** `std::chrono::nanoseconds`: a signed 64-bit count. */
  type Nanoseconds = n: int | INT64_MIN <= n <= INT64_MAX

  /** Division truncating toward zero, as `duration_cast` does. */
  function TruncDiv(a: int, b: int): (q: int)
    requires b > 0
    ensures a >= 0 ==> 0 <= q * b <= a < (q + 1) * b
    ensures a < 0 ==> (q - 1) * b < a <= q * b <= 0
  {
    if a >= 0 then
      DivBounds(a, b);
      a / b
    else
      DivBounds(-a, b);
      var q := (-a) / b;
      assert (-q - 1) * b == -(q + 1) * b && -q * b == -(q * b);
      -q
  }

  /** Euclidean division of a natural number brackets it between consecutive multiples. */
  lemma DivBounds(a: nat, b: int)
    requires b > 0
    ensures 0 <= (a / b) * b <= a < (a / b + 1) * b
  {
    var q, r := a / b, a % b;
    assert a == q * b + r && 0 <= r < b;
    assert (q + 1) * b == q * b + b;
    assert q >= 0;
    assert q * b >= 0;
  }

  /** `static_cast<int>` of a wider integer: reduction modulo 2^32 into the signed 32-bit range. */
  function WrapInt32(x: int): (y: int)
    ensures INT32_MIN <= y <= INT32_MAX
    ensures (y - x) % 0x1_0000_0000 == 0
    ensures INT32_MIN <= x <= INT32_MAX ==> y == x
  {
    var m := x % 0x1_0000_0000;
    if m > INT32_MAX then m - 0x1_0000_0000 else m
  }

  /** The timeout in milliseconds as the source computes it. */
  function TimeoutMillisAsWritten(ns: Nanoseconds): (ms: int)
    ensures INT32_MIN <= ms <= INT32_MAX
    ensures (ms - TruncDiv(ns, NS_PER_MS)) % 0x1_0000_0000 == 0
  {
    WrapInt32(TruncDiv(ns, NS_PER_MS))
  }

  /**
   * Timeouts of 2^31 ms (about 24.9 days) and of 2^32 ms (about 49.7 days) reach the OS as a
   * negative value and as zero (do not wait at all). What a negative value other than -1 does
   * depends on the platform: Linux waits without limit, BSD and macOS reject it.
   */
  lemma TimeoutOverflow()
    ensures TimeoutMillisAsWritten(0x8000_0000 * NS_PER_MS) == INT32_MIN
    ensures TimeoutMillisAsWritten(0x1_0000_0000 * NS_PER_MS) == 0
    ensures TimeoutMillis(0x8000_0000 * NS_PER_MS) == INT32_MAX
    ensures TimeoutMillis(0x1_0000_0000 * NS_PER_MS) == INT32_MAX
  {
  }

  /** The timeout in whole milliseconds, saturated to the range of `int`. */
  function TimeoutMillis(ns: Nanoseconds): (ms: int)
    ensures INT32_MIN <= ms <= INT32_MAX
    ensures ns >= 0 ==> 0 <= ms && ms * NS_PER_MS <= ns
    ensures ns < 0 ==> ms <= 0 && ns <= ms * NS_PER_MS
    ensures INT32_MIN <= TruncDiv(ns, NS_PER_MS) <= INT32_MAX ==> ms == TruncDiv(ns, NS_PER_MS)
    ensures ms == INT32_MAX || ms == INT32_MIN || ms == TruncDiv(ns, NS_PER_MS)
  {
    var q := TruncDiv(ns, NS_PER_MS);
    if q > INT32_MAX then INT32_MAX else if q < INT32_MIN then INT32_MIN else q
  }

  /** The two agree on every timeout whose millisecond count fits an `int`. */
  lemma TimeoutAgreesInRange(ns: Nanoseconds)
    requires INT32_MIN <= TruncDiv(ns, NS_PER_MS) <= INT32_MAX
    ensures TimeoutMillis(ns) == TimeoutMillisAsWritten(ns)
  {
  }

  // ---------------------------------------------------------------------------
  // The poller object

  /**
   * `poller`; `live` is false once the implementation was moved out (`pimpl_` is null), after
   * which every operation does nothing.
   */
  class Poller {
    var live: bool
    var results: seq<PollResult>
    var entries: seq<PollEntry>
    var entryTypes: seq<PollType>

    predicate Valid()
      reads this
    {
      Aligned(entries, entryTypes) && (!live ==> entries == [] && entryTypes == [] && results == [])
    }

    constructor ()
      ensures Valid() && live
      ensures entries == [] && entryTypes == [] && results == []
    {
      live := true;
      results := [];
      entries := [];
      entryTypes := [];
    }

    /** The defaulted move constructor: takes the implementation over. */
    constructor Move(other: Poller)
      requires other.Valid()
      modifies other
      ensures Valid() && other.Valid() && !other.live
      ensures live == old(other.live) && entries == old(other.entries)
      ensures entryTypes == old(other.entryTypes) && results == old(other.results)
    {
      live, results, entries, entryTypes := other.live, other.results, other.entries, other.entryTypes;
      new;
      other.live, other.results, other.entries, other.entryTypes := false, [], [], [];
    }

    /** The defaulted move assignment; assigning to itself changes nothing. */
    method MoveAssign(other: Poller)
      requires Valid() && other.Valid()
      modifies this, other
      ensures Valid() && other.Valid()
      ensures other == this ==> unchanged(this)
      ensures other != this ==> !other.live && live == old(other.live) && entries == old(other.entries)
      ensures other != this ==> entryTypes == old(other.entryTypes) && results == old(other.results)
    {
      if other != this {
        live, results, entries, entryTypes := other.live, other.results, other.entries, other.entryTypes;
        other.live, other.results, other.entries, other.entryTypes := false, [], [], [];
      }
    }

    /** `add_socket`: appends one entry, whether or not the descriptor is already present. */
    method AddSocket(id: SocketId, t: PollType)
      requires Valid()
      modifies this
      ensures Valid() && live == old(live) && results == old(results)
      ensures live ==> entries == old(entries) + [PollEntry(id, MapPollType(t), 0)]
      ensures live ==> entryTypes == old(entryTypes) + [t]
      ensures !live ==> unchanged(this)
    {
      if !live {
        return;
      }
      entries := entries + [PollEntry(id, MapPollType(t), 0)];
      entryTypes := entryTypes + [t];
    }

    /** `update_socket`: re-types the first entry for `id`; nothing changes if there is none. */
    method UpdateSocket(id: SocketId, t: PollType)
      requires Valid()
      modifies this
      ensures Valid() && live == old(live) && results == old(results)
      ensures |entries| == |old(entries)|
      ensures match FirstIndex(old(entries), id)
        case None => entries == old(entries) && entryTypes == old(entryTypes)
        case Some(k) =>
          && entries == old(entries)[k := old(entries)[k].(events := MapPollType(t))]
          && entryTypes == old(entryTypes)[k := t]
    {
      if !live {
        return;
      }
      var ix := 0;
      while ix < |entries|
        invariant 0 <= ix <= |entries| == |old(entries)|
        invariant entries == old(entries) && entryTypes == old(entryTypes)
        invariant live && results == old(results)
        invariant forall j :: 0 <= j < ix ==> entries[j].fd != id
      {
        if entries[ix].fd == id {
          entries := entries[ix := entries[ix].(events := MapPollType(t))];
          break;
        }
        ix := ix + 1;
      }
      if ix < |entryTypes| {
        entryTypes := entryTypes[ix := t];
      }
    }

    /** `remove_socket`: swap-with-last removal of the first entry for `id`, if there is one. */
    method RemoveSocket(id: SocketId)
      requires Valid()
      modifies this
      ensures Valid() && live == old(live) && results == old(results)
      ensures |entries| == |old(entries)| - (if FirstIndex(old(entries), id).Some? then 1 else 0)
      ensures match FirstIndex(old(entries), id)
        case None => entries == old(entries) && entryTypes == old(entryTypes)
        case Some(k) =>
          && entries == SwapRemove(old(entries), k)
          && entryTypes == SwapRemove(old(entryTypes), k)
          && multiset(Interests(entries, entryTypes)) + multiset{(id, old(entryTypes)[k])}
             == multiset(Interests(old(entries), old(entryTypes)))
    {
      if !live {
        return;
      }
      var ix := 0;
      while ix < |entries|
        invariant 0 <= ix <= |entries|
        invariant entries == old(entries) && entryTypes == old(entryTypes)
        invariant live && results == old(results)
        invariant forall j :: 0 <= j < ix ==> entries[j].fd != id
      {
        if entries[ix].fd == id {
          SwapRemoveAligned(entries, entryTypes, ix);
          SwapRemoveInterests(entries, entryTypes, ix);
          var last := |entries| - 1;
          if ix < last {
            entries := entries[ix := entries[last]];
            entryTypes := entryTypes[ix := entryTypes[last]];
          }
          entries := entries[..last];
          entryTypes := entryTypes[..last];
          return;
        }
        ix := ix + 1;
      }
    }

    /**
     * `poll`: clears the previous results, hands the OS wait the timeout in milliseconds
     * (`timeoutMs`), and on success derives the results from the readiness bits `revents` it
     * wrote; `ret` is the wait's return value, -1 on failure.
     */
    method Poll(timeout: Nanoseconds, ret: int, revents: seq<bv16>)
      returns (r: Result<seq<PollResult>, PollError>, timeoutMs: int)
      requires Valid() && |revents| == |entries|
      modifies this
      ensures Valid() && live == old(live) && entryTypes == old(entryTypes)
      ensures !live ==> r == Ok([]) && unchanged(this)
      ensures live ==> timeoutMs == TimeoutMillis(timeout)
      ensures live && INT32_MIN <= TruncDiv(timeout, NS_PER_MS) <= INT32_MAX ==>
        timeoutMs == TimeoutMillisAsWritten(timeout)
      ensures live && ret == -1 ==> r == Err(PollError) && results == [] && entries == old(entries)
      ensures live && ret != -1 ==> entries == WithRevents(old(entries), revents)
      ensures live && ret != -1 ==> r == Ok(results) && results == Derive(entries, entryTypes)
    {
      timeoutMs := 0;
      if !live {
        return Ok([]), timeoutMs;
      }
      results := [];
      timeoutMs := TimeoutMillis(timeout);
      if ret == -1 {
        return Err(PollError), timeoutMs;
      }
      entries := WithRevents(entries, revents);
      WithReventsAligned(old(entries), entryTypes, revents);
      results := CollectResults(entries, entryTypes);
      r := Ok(results);
    }
  }
}
