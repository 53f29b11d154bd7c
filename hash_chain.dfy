/**
 `HashChain`, the in-memory chain index of the wallet: an ordered height -> hash
 dictionary plus five cached scalars (tip height, tip hash, the server's tip
 height, the hashes still to download and the entry count), each of which
 raises a property-changed notification when a write changes its value.

 The pure part states what each public operation does to a `Snapshot` of the
 object; the class `HashChain` holds the same state in fields and its methods
 are proved to perform exactly those transitions.
 */
module Stores {
  import opened SortedChain

  datatype Option<T> = None | Some(value: T)

  /** The observable properties that raise `PropertyChanged`. */
  datatype Property = TipHeight | TipHash | ServerTipHeight | HashesLeft | HashCount

  /** The whole state of a `HashChain`; `tipHash` is `None` while the field still holds null. */
  datatype Snapshot = Snapshot(
    chain: seq<Entry>,
    tipHeight: int,
    tipHash: Option<Hash>,
    serverTipHeight: int,
    hashesLeft: int,
    hashCount: int)

  /** A freshly constructed `HashChain`: empty dictionary, every scalar at its default. */
  const Empty := Snapshot([], 0, None, 0, 0, 0)

  /** The larger of 0 and the gap from the tip to the server's tip, with unbounded integers. */
  function HashesLeftFor(serverTipHeight: int, tipHeight: int): (r: int)
    ensures r >= 0 && r >= serverTipHeight - tipHeight
    ensures r == 0 || r == serverTipHeight - tipHeight
  {
    if serverTipHeight - tipHeight > 0 then serverTipHeight - tipHeight else 0
  }

  /**
   What holds in every reachable state, including after `RemoveLast` has
   thrown: the entries ascend, and the hashes left are `max(0, ServerTipHeight - TipHeight)`.
   */
  predicate WellFormed(st: Snapshot) {
    && Ascending(st.chain)
    && st.hashesLeft == HashesLeftFor(st.serverTipHeight, st.tipHeight)
  }

  /** The two derived scalars agree with what they are derived from. */
  predicate InSync(st: Snapshot) {
    && st.hashCount == |ToMap(st.chain)|
    && st.hashesLeft == HashesLeftFor(st.serverTipHeight, st.tipHeight)
  }

  /** The property `p` has a different value in `a` and in `b`. */
  predicate Differs(p: Property, a: Snapshot, b: Snapshot) {
    match p
    case TipHeight => a.tipHeight != b.tipHeight
    case TipHash => a.tipHash != b.tipHash
    case ServerTipHeight => a.serverTipHeight != b.serverTipHeight
    case HashesLeft => a.hashesLeft != b.hashesLeft
    case HashCount => a.hashCount != b.hashCount
  }

  /**
   The notification log after the guarded setter of `p` has written the value
   `p` has in `b` over the one it has in `a`: the name is logged only if the
   two values differ.
   */
  function Write(log: seq<Property>, p: Property, a: Snapshot, b: Snapshot): (r: seq<Property>)
    ensures |log| <= |r| <= |log| + 1 && r[..|log|] == log
    ensures |r| == |log| + 1 <==> Differs(p, a, b)
    ensures Differs(p, a, b) ==> r[|log|] == p
  {
    if Differs(p, a, b) then log + [p] else log
  }

  /** Writes of `AddOrReplace` and of a completed `RemoveLast`: tip height, tip hash, count, hashes left. */
  function TipWrites(log: seq<Property>, a: Snapshot, b: Snapshot): (r: seq<Property>)
    ensures |log| <= |r| <= |log| + 4 && r[..|log|] == log
  {
    Write(Write(Write(Write(log, TipHeight, a, b), TipHash, a, b), HashCount, a, b), HashesLeft, a, b)
  }

  /** Writes of `UpdateServerTipHeight`: server tip height, then hashes left. */
  function ServerTipWrites(log: seq<Property>, a: Snapshot, b: Snapshot): (r: seq<Property>)
    ensures |log| <= |r| <= |log| + 2 && r[..|log|] == log
  {
    Write(Write(log, ServerTipHeight, a, b), HashesLeft, a, b)
  }

  /** Effect of `AddOrReplace(height, hash)`. */
  function AfterAddOrReplace(st: Snapshot, height: int, hash: Hash): (r: Snapshot)
    requires WellFormed(st)
    ensures WellFormed(r)
  {
    var chain := Put(st.chain, height, hash);
    st.(chain := chain, tipHeight := height, tipHash := Some(hash), hashCount := |chain|,
        hashesLeft := HashesLeftFor(st.serverTipHeight, height))
  }

  /**
   `AddOrReplace(height, hash)` gains or overwrites exactly `height -> hash`,
   forces the tip to the arguments even below the largest key, brings count and
   hashes left in sync, and leaves the server tip alone.
   */
  lemma AddOrReplaceEffect(st: Snapshot, height: int, hash: Hash)
    requires WellFormed(st)
    ensures var r := AfterAddOrReplace(st, height, hash);
      && ToMap(r.chain) == ToMap(st.chain)[height := hash]
      && r.tipHeight == height && r.tipHash == Some(hash)
      && r.serverTipHeight == st.serverTipHeight
      && InSync(r)
  {
    var chain := Put(st.chain, height, hash);
    PutContents(st.chain, height, hash);
    ToMapSize(chain);
  }

  /**
   How `RemoveLast` ends: it returns normally, or it throws from `Chain.Last()`
   with the dictionary already emptied and every scalar left as it was.
   */
  datatype RemoveOutcome = Completed(state: Snapshot) | Threw(state: Snapshot)

  /**
   Effect of `RemoveLast()`, the exception included: it throws exactly on a
   chain of one entry, does nothing on an empty one, and the state it leaves
   is well formed either way.
   */
  function AfterRemoveLast(st: Snapshot): (r: RemoveOutcome)
    requires WellFormed(st)
    ensures r.Threw? <==> |st.chain| == 1
    ensures st.chain == [] ==> r == Completed(st)
    ensures WellFormed(r.state)
  {
    if st.chain == [] then Completed(st)
    else
      var chain := st.chain[..|st.chain| - 1];
      if chain == [] then Threw(st.(chain := chain))
      else
        var last := chain[|chain| - 1];
        Completed(st.(chain := chain, tipHeight := last.height, tipHash := Some(last.hash),
                      hashCount := |chain|,
                      hashesLeft := HashesLeftFor(st.serverTipHeight, last.height)))
  }

  /** Effect of `UpdateServerTipHeight(height)`. */
  function AfterUpdateServerTipHeight(st: Snapshot, height: int): (r: Snapshot)
    requires WellFormed(st)
    ensures WellFormed(r)
  {
    st.(serverTipHeight := height, hashesLeft := HashesLeftFor(height, st.tipHeight))
  }

  /** Applies `AddOrReplace` for each call in turn. */
  function AfterAddAll(st: Snapshot, calls: seq<Entry>): (r: Snapshot)
    requires WellFormed(st)
    ensures WellFormed(r)
    decreases |calls|
  {
    if calls == [] then st
    else AfterAddAll(AfterAddOrReplace(st, calls[0].height, calls[0].hash), calls[1..])
  }

  // ---------------------------------------------------------------------------
  // Properties of the transitions
  // ---------------------------------------------------------------------------

  /**
   `AddOrReplace` and a completed `RemoveLast` append to the earlier log exactly
   the properties among tip height, tip hash, count and hashes left whose value
   changed, in that order, and nothing else.
   */
  lemma TipWritesExact(log: seq<Property>, a: Snapshot, b: Snapshot)
    ensures var r := TipWrites(log, a, b);
      && r == log + (if a.tipHeight != b.tipHeight then [TipHeight] else [])
                  + (if a.tipHash != b.tipHash then [TipHash] else [])
                  + (if a.hashCount != b.hashCount then [HashCount] else [])
                  + (if a.hashesLeft != b.hashesLeft then [HashesLeft] else [])
  {
  }

  /**
   `UpdateServerTipHeight` appends the server tip height if it changed, then the
   hashes left if they changed, and nothing else.
   */
  lemma ServerTipWritesExact(log: seq<Property>, a: Snapshot, b: Snapshot)
    ensures var r := ServerTipWrites(log, a, b);
      && r == log + (if a.serverTipHeight != b.serverTipHeight then [ServerTipHeight] else [])
                  + (if a.hashesLeft != b.hashesLeft then [HashesLeft] else [])
  {
  }

  /** Writing every property to the value it already has raises nothing. */
  lemma NoWritesWithoutChange(log: seq<Property>, a: Snapshot)
    ensures TipWrites(log, a, a) == log && ServerTipWrites(log, a, a) == log
  {
  }

  /**
   `AddOrReplace(h, v)` a second time leaves the state as the first call left it
   and raises no notification.
   */
  lemma AddOrReplaceIdempotent(st: Snapshot, height: int, hash: Hash)
    requires WellFormed(st)
    ensures AfterAddOrReplace(AfterAddOrReplace(st, height, hash), height, hash)
            == AfterAddOrReplace(st, height, hash)
    ensures var once := AfterAddOrReplace(st, height, hash);
            forall log :: TipWrites(log, once, AfterAddOrReplace(once, height, hash)) == log
  {
    var once := AfterAddOrReplace(st, height, hash);
    AddOrReplaceEffect(st, height, hash);
    PutPresent(once.chain, height, hash);
  }

  /**
   `RemoveLast` on an empty chain changes nothing; on a chain of two or more
   entries it removes exactly the largest key and moves the tip to the new
   largest key; on a chain of one entry it empties the dictionary and then throws,
   leaving every scalar stale.
   */
  lemma RemoveLastEffect(st: Snapshot)
    requires WellFormed(st)
    ensures st.chain == [] ==> AfterRemoveLast(st) == Completed(st)
    ensures |st.chain| == 1 ==>
      AfterRemoveLast(st).Threw? &&
      var r := AfterRemoveLast(st).state;
      ToMap(r.chain) == map[] && r == st.(chain := r.chain)
    ensures |st.chain| >= 2 ==>
      AfterRemoveLast(st).Completed? &&
      var r := AfterRemoveLast(st).state;
      var old_ := ToMap(st.chain);
      var top := st.chain[|st.chain| - 1].height;
      var new_ := ToMap(r.chain);
      && top in old_ && (forall k :: k in old_ ==> k <= top)
      && new_ == old_ - {top}
      && r.tipHeight in new_ && (forall k :: k in new_ ==> k <= r.tipHeight)
      && r.tipHash == Some(new_[r.tipHeight])
      && r.serverTipHeight == st.serverTipHeight
      && WellFormed(r) && InSync(r)
  {
    if st.chain != [] {
      LastIsMax(st.chain);
      DropLast(st.chain);
      var chain := st.chain[..|st.chain| - 1];
      if chain != [] {
        LastIsMax(chain);
        ToMapAt(chain, |chain| - 1);
        ToMapSize(chain);
      }
    }
  }

  /**
   `UpdateServerTipHeight(n)` sets the server height, recomputes the hashes left
   and touches nothing else, so it keeps the derived scalars in sync.
   */
  lemma UpdateServerTipHeightEffect(st: Snapshot, height: int)
    requires WellFormed(st)
    ensures var r := AfterUpdateServerTipHeight(st, height);
      && r.serverTipHeight == height
      && r.hashesLeft == HashesLeftFor(height, r.tipHeight)
      && r == st.(serverTipHeight := r.serverTipHeight, hashesLeft := r.hashesLeft)
      && (st.hashCount == |ToMap(st.chain)| ==> InSync(r))
  {
  }

  /** A run of `AddOrReplace` calls adds exactly the calls' heights to the keys. */
  lemma {:induction false} AddAllKeys(st: Snapshot, calls: seq<Entry>)
    requires WellFormed(st)
    decreases |calls|
    ensures ToMap(AfterAddAll(st, calls).chain).Keys == ToMap(st.chain).Keys + Heights(calls)
  {
    if calls != [] {
      var next := AfterAddOrReplace(st, calls[0].height, calls[0].hash);
      AddOrReplaceEffect(st, calls[0].height, calls[0].hash);
      AddAllKeys(next, calls[1..]);
      HeightsCons(calls);
    }
  }

  /** A run of calls followed by one more is that run, then `AddOrReplace` of the last call. */
  lemma {:induction false} AddAllSnoc(st: Snapshot, calls: seq<Entry>, e: Entry)
    requires WellFormed(st)
    decreases |calls|
    ensures AfterAddAll(st, calls + [e]) == AfterAddOrReplace(AfterAddAll(st, calls), e.height, e.hash)
  {
    if calls == [] {
      assert ([] + [e])[1..] == [];
    } else {
      var next := AfterAddOrReplace(st, calls[0].height, calls[0].hash);
      assert (calls + [e])[0] == calls[0];
      assert (calls + [e])[1..] == calls[1..] + [e];
      AddAllSnoc(next, calls[1..], e);
    }
  }

  /** After a non-empty run of `AddOrReplace` calls the tip is the last call's, and the scalars are in sync. */
  lemma AddAllTip(st: Snapshot, calls: seq<Entry>)
    requires WellFormed(st) && calls != []
    ensures var r := AfterAddAll(st, calls);
      && r.tipHeight == calls[|calls| - 1].height
      && r.tipHash == Some(calls[|calls| - 1].hash)
      && InSync(r)
  {
    var init, last := calls[..|calls| - 1], calls[|calls| - 1];
    assert calls == init + [last];
    AddAllSnoc(st, init, last);
    ToMapSize(AfterAddAll(st, calls).chain);
  }

  /**
   After any non-empty run of `AddOrReplace` calls the dictionary holds exactly
   the earlier keys and the heights of the calls, the count is the number of
   those distinct heights, the tip is the last call's, and the derived scalars
   are in sync.
   */
  lemma AddAllEffect(st: Snapshot, calls: seq<Entry>)
    requires WellFormed(st) && calls != []
    ensures var r := AfterAddAll(st, calls);
      && ToMap(r.chain).Keys == ToMap(st.chain).Keys + Heights(calls)
      && r.hashCount == |ToMap(st.chain).Keys + Heights(calls)|
      && r.tipHeight == calls[|calls| - 1].height
      && r.tipHash == Some(calls[|calls| - 1].hash)
      && InSync(r)
  {
    var r := AfterAddAll(st, calls);
    AddAllKeys(st, calls);
    AddAllTip(st, calls);
    assert |ToMap(r.chain)| == |ToMap(r.chain).Keys|;
  }

  lemma HeightsCons(calls: seq<Entry>)
    requires calls != []
    ensures Heights(calls) == {calls[0].height} + Heights(calls[1..])
  {
    assert forall e :: e in calls <==> e == calls[0] || e in calls[1..];
  }

  /**
   The reorganisation scenario: add 0:A, 1:B, 2:C, remove the last entry, then
   learn that the server is at height 10.
   */
  lemma ReorgScenario(a: Hash, b: Hash, c: Hash)
    ensures var added := AfterAddAll(Empty, [Entry(0, a), Entry(1, b), Entry(2, c)]);
      && AfterRemoveLast(added) == Completed(Snapshot([Entry(0, a), Entry(1, b)], 1, Some(b), 0, 0, 2))
      && AfterUpdateServerTipHeight(AfterRemoveLast(added).state, 10).hashesLeft == 9
  {
    var s1 := AfterAddOrReplace(Empty, 0, a);
    assert s1.chain == [Entry(0, a)];
    var s2 := AfterAddOrReplace(s1, 1, b);
    assert Put([Entry(0, a)], 1, b) == [Entry(0, a)] + Put([], 1, b);
    assert s2.chain == [Entry(0, a), Entry(1, b)];
    var s3 := AfterAddOrReplace(s2, 2, c);
    assert Put([Entry(1, b)], 2, c) == [Entry(1, b), Entry(2, c)];
    assert s3.chain == [Entry(0, a), Entry(1, b), Entry(2, c)];
    var calls := [Entry(0, a), Entry(1, b), Entry(2, c)];
    assert calls[1..] == [Entry(1, b), Entry(2, c)] && calls[1..][1..] == [Entry(2, c)];
    assert AfterAddAll(s3, []) == s3;
    assert AfterAddAll(s2, [Entry(2, c)]) == s3;
    assert AfterAddAll(s1, [Entry(1, b), Entry(2, c)]) == s3;
    assert AfterAddAll(Empty, calls) == s3;
  }

  /** Re-adding a lower height moves the tip backwards: the tip is not the largest key. */
  lemma TipFollowsLastCall(a: Hash, b: Hash)
    ensures var r := AfterAddAll(Empty, [Entry(0, a), Entry(5, b), Entry(3, a)]);
      && r.tipHeight == 3 && 5 in ToMap(r.chain)
  {
    AddAllTip(Empty, [Entry(0, a), Entry(5, b), Entry(3, a)]);
    AddAllKeys(Empty, [Entry(0, a), Entry(5, b), Entry(3, a)]);
  }

  /** Query result of `TryGetHeight`: its return value and its `out` height. */
  datatype Lookup = Lookup(found: bool, height: int)

  /**
   The object itself. Methods are atomic: the lock around each body is not
   modelled. `notified` records, in order, the names passed to `PropertyChanged`.
   */
  class HashChain {
    var chain: seq<Entry>
    var tipHeight: int
    var tipHash: Option<Hash>
    var serverTipHeight: int
    var hashesLeft: int
    var hashCount: int
    ghost var notified: seq<Property>

    function Model(): Snapshot
      reads this
    {
      Snapshot(chain, tipHeight, tipHash, serverTipHeight, hashesLeft, hashCount)
    }

    ghost predicate Valid()
      reads this
    {
      WellFormed(Model())
    }

    /** The dictionary `Chain`. */
    function Contents(): map<int, Hash>
      reads this
    {
      ToMap(chain)
    }

    constructor ()
      ensures Valid() && Model() == Empty && InSync(Model())
      ensures notified == []
    {
      chain := [];
      tipHeight, tipHash, serverTipHeight, hashesLeft, hashCount := 0, None, 0, 0, 0;
      notified := [];
    }

    method SetTipHeight(value: int)
      modifies this`tipHeight, this`notified
      ensures tipHeight == value
      ensures notified == old(notified) + if old(tipHeight) != value then [TipHeight] else []
    {
      if tipHeight != value {
        tipHeight := value;
        notified := notified + [TipHeight];
      }
    }

    method SetTipHash(value: Option<Hash>)
      modifies this`tipHash, this`notified
      ensures tipHash == value
      ensures notified == old(notified) + if old(tipHash) != value then [TipHash] else []
    {
      if tipHash != value {
        tipHash := value;
        notified := notified + [TipHash];
      }
    }

    method SetServerTipHeight(value: int)
      modifies this`serverTipHeight, this`notified
      ensures serverTipHeight == value
      ensures notified == old(notified) + if old(serverTipHeight) != value then [ServerTipHeight] else []
    {
      if serverTipHeight != value {
        serverTipHeight := value;
        notified := notified + [ServerTipHeight];
      }
    }

    method SetHashesLeftTo(value: int)
      modifies this`hashesLeft, this`notified
      ensures hashesLeft == value
      ensures notified == old(notified) + if old(hashesLeft) != value then [HashesLeft] else []
    {
      if hashesLeft != value {
        hashesLeft := value;
        notified := notified + [HashesLeft];
      }
    }

    method SetHashCount(value: int)
      modifies this`hashCount, this`notified
      ensures hashCount == value
      ensures notified == old(notified) + if old(hashCount) != value then [HashCount] else []
    {
      if hashCount != value {
        hashCount := value;
        notified := notified + [HashCount];
      }
    }

    /** `SetHashesLeft`: recompute the hashes left from the current heights. */
    method SetHashesLeft()
      modifies this`hashesLeft, this`notified
      ensures hashesLeft == HashesLeftFor(serverTipHeight, tipHeight)
      ensures notified == old(notified) + if old(hashesLeft) != hashesLeft then [HashesLeft] else []
    {
      SetHashesLeftTo(HashesLeftFor(serverTipHeight, tipHeight));
    }

    method AddOrReplace(height: int, hash: Hash)
      requires Valid()
      modifies this
      ensures Valid() && InSync(Model())
      ensures Model() == AfterAddOrReplace(old(Model()), height, hash)
      ensures Contents() == old(Contents())[height := hash]
      ensures notified == TipWrites(old(notified), old(Model()), Model())
    {
      ghost var before := Model();
      ghost var after := AfterAddOrReplace(before, height, hash);
      chain := Put(chain, height, hash);
      SetTipHeight(height);
      assert notified == Write(old(notified), TipHeight, before, after);
      SetTipHash(Some(hash));
      assert notified == Write(Write(old(notified), TipHeight, before, after), TipHash, before, after);
      SetHashCount(|chain|);
      assert notified == Write(Write(Write(old(notified), TipHeight, before, after), TipHash, before, after),
                              HashCount, before, after);
      SetHashesLeft();
      assert Model() == after;
      AddOrReplaceEffect(before, height, hash);
    }

    /** Returns `true` where `HashChain.RemoveLast` throws from `Chain.Last()`, on a chain of one entry. */
    method RemoveLast() returns (threw: bool)
      requires Valid()
      modifies this
      ensures Valid()
      ensures AfterRemoveLast(old(Model())) == if threw then Threw(Model()) else Completed(Model())
      ensures threw <==> |old(chain)| == 1
      ensures notified == if threw then old(notified) else TipWrites(old(notified), old(Model()), Model())
    {
      ghost var before := Model();
      threw := false;
      if chain == [] {
      } else {
        chain := chain[..|chain| - 1];
        if chain == [] {
          threw := true;
          return;
        }
        var last := chain[|chain| - 1];
        ghost var after := AfterRemoveLast(before).state;
        SetTipHeight(last.height);
        assert notified == Write(old(notified), TipHeight, before, after);
        SetTipHash(Some(last.hash));
        assert notified == Write(Write(old(notified), TipHeight, before, after), TipHash, before, after);
        SetHashCount(|chain|);
        assert notified == Write(Write(Write(old(notified), TipHeight, before, after), TipHash, before, after),
                                HashCount, before, after);
        SetHashesLeft();
        assert Model() == after;
      }
    }

    method UpdateServerTipHeight(height: int)
      requires Valid()
      modifies this
      ensures Valid()
      ensures Model() == AfterUpdateServerTipHeight(old(Model()), height)
      ensures notified == ServerTipWrites(old(notified), old(Model()), Model())
    {
      SetServerTipHeight(height);
      SetHashesLeft();
    }

    /**
     `GetChain`: an independent copy of every (height, hash) pair, in strictly
     ascending height order.
     */
    function GetChain(): (r: seq<Entry>)
      reads this
      requires Valid()
      ensures Ascending(r)
      ensures ToMap(r) == Contents() && |r| == |Contents()|
    {
      ToMapSize(chain);
      chain
    }

    /**
     `TryGetHeight`: found exactly when some entry holds `hash`; the height is
     then the smallest such key, and 0 otherwise, so a hash stored at height 0
     is told apart from a missing one.
     */
    function TryGetHeight(hash: Hash): (r: Lookup)
      reads this
      requires Valid()
      ensures r.found <==> exists k :: k in Contents() && Contents()[k] == hash
      ensures r.found ==> r.height in Contents() && Contents()[r.height] == hash
      ensures r.found ==> forall k :: k in Contents() && Contents()[k] == hash ==> r.height <= k
      ensures !r.found ==> r.height == 0
    {
      FirstMatchIsLeast(chain, hash);
      var height := FirstMatch(chain, hash);
      var m := ToMap(chain);
      if height == 0 && (0 !in m || m[0] != hash) then Lookup(false, height)
      else
        assert height in Contents() && Contents()[height] == hash;
        Lookup(true, height)
    }
  }

  /**
   Height 0 is a real key: a hash stored there is reported found at height 0,
   while any other hash of a chain holding only that entry is reported missing.
   */
  lemma FoundAtHeightZero(chain: HashChain, h1: Hash, h2: Hash)
    requires chain.Valid() && chain.Contents() == map[0 := h1] && h2 != h1
    ensures chain.TryGetHeight(h1) == Lookup(true, 0)
    ensures chain.TryGetHeight(h2) == Lookup(false, 0)
  {
  }
}
