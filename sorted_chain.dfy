/**
 The ordered height -> hash dictionary that `HashChain` keeps in its `Chain`
 property (a `SortedDictionary<int, uint256>`). It is modelled as a sequence of
 entries whose heights strictly ascend, which is the order in which the
 dictionary enumerates; `ToMap` gives the dictionary it stands for.
 */
module SortedChain {

  /** Stand-in for NBitcoin's `uint256`: a value compared only for equality. */
  type Hash(==)

  datatype Entry = Entry(height: int, hash: Hash)

  /** Heights strictly ascend, so no height occurs twice. */
  predicate Ascending(s: seq<Entry>) {
    forall i, j :: 0 <= i < j < |s| ==> s[i].height < s[j].height
  }

  /** The dictionary an entry sequence stands for. */
  function ToMap(s: seq<Entry>): map<int, Hash> {
    if s == [] then map[] else ToMap(s[1..])[s[0].height := s[0].hash]
  }

  /** The heights that occur in an entry sequence. */
  function Heights(s: seq<Entry>): set<int> {
    set e | e in s :: e.height
  }

  lemma {:induction false} ToMapKeys(s: seq<Entry>)
    ensures ToMap(s).Keys == Heights(s)
  {
    if s != [] {
      ToMapKeys(s[1..]);
      forall k | k in Heights(s) ensures k in ToMap(s) {
        var e :| e in s && e.height == k;
        if e != s[0] {
          assert e in s[1..];
        }
      }
    }
  }

  /** Every entry of an ascending sequence is a binding of its dictionary. */
  lemma {:induction false} ToMapAt(s: seq<Entry>, i: int)
    requires Ascending(s)
    requires 0 <= i < |s|
    ensures s[i].height in ToMap(s) && ToMap(s)[s[i].height] == s[i].hash
  {
    if i > 0 {
      ToMapAt(s[1..], i - 1);
    }
  }

  /** An ascending sequence has one entry per key, so its length is the dictionary's `Count`. */
  lemma {:induction false} ToMapSize(s: seq<Entry>)
    requires Ascending(s)
    ensures |ToMap(s)| == |s|
  {
    if s != [] {
      ToMapSize(s[1..]);
      ToMapKeys(s[1..]);
      assert s[0].height !in ToMap(s[1..]);
    }
  }

  /** The last entry of an ascending sequence holds the largest key (`Chain.Keys.Max()`). */
  lemma LastIsMax(s: seq<Entry>)
    requires Ascending(s) && s != []
    ensures s[|s| - 1].height in ToMap(s)
    ensures forall k :: k in ToMap(s) ==> k <= s[|s| - 1].height
  {
  }

  /** Dropping the last entry removes exactly the largest key from the dictionary. */
  lemma {:induction false} DropLast(s: seq<Entry>)
    requires Ascending(s) && s != []
    ensures Ascending(s[..|s| - 1])
    ensures ToMap(s[..|s| - 1]) == ToMap(s) - {s[|s| - 1].height}
  {
    if |s| > 1 {
      var t := s[1..];
      DropLast(t);
      assert s[..|s| - 1][1..] == t[..|t| - 1];
      assert s[..|s| - 1][0] == s[0];
    }
  }

  /**
   Insert-or-overwrite of one binding (`dict[height] = hash`), keeping the
   sequence ascending.
   */
  function Put(s: seq<Entry>, height: int, hash: Hash): (r: seq<Entry>)
    requires Ascending(s)
    ensures Ascending(r)
    ensures Entry(height, hash) in r
    ensures forall e :: e in r ==> e == Entry(height, hash) || e in s
  {
    if s == [] then [Entry(height, hash)]
    else if height < s[0].height then [Entry(height, hash)] + s
    else if height == s[0].height then [Entry(height, hash)] + s[1..]
    else
      var rest := Put(s[1..], height, hash);
      assert forall e :: e in rest ==> s[0].height < e.height by {
        forall e | e in rest ensures s[0].height < e.height {
          if e != Entry(height, hash) {
            var j :| 0 <= j < |s[1..]| && s[1..][j] == e;
            assert s[j + 1] == e;
          }
        }
      }
      [s[0]] + rest
  }

  lemma ToMapCons(e: Entry, t: seq<Entry>)
    ensures ToMap([e] + t) == ToMap(t)[e.height := e.hash]
  {
    assert ([e] + t)[1..] == t;
  }

  lemma UpdateCommutes(m: map<int, Hash>, k1: int, v1: Hash, k2: int, v2: Hash)
    requires k1 != k2
    ensures m[k1 := v1][k2 := v2] == m[k2 := v2][k1 := v1]
  {
  }

  /** `Put` overwrites the binding at `height` and leaves every other binding alone. */
  lemma {:induction false} PutContents(s: seq<Entry>, height: int, hash: Hash)
    requires Ascending(s)
    ensures ToMap(Put(s, height, hash)) == ToMap(s)[height := hash]
  {
    if s == [] {
    } else if height < s[0].height {
      ToMapCons(Entry(height, hash), s);
    } else if height == s[0].height {
      ToMapCons(Entry(height, hash), s[1..]);
    } else {
      var rest := Put(s[1..], height, hash);
      PutContents(s[1..], height, hash);
      assert Put(s, height, hash) == [s[0]] + rest;
      ToMapCons(s[0], rest);
      UpdateCommutes(ToMap(s[1..]), height, hash, s[0].height, s[0].hash);
    }
  }

  /** Writing a binding the dictionary already holds leaves the sequence as it was. */
  lemma {:induction false} PutPresent(s: seq<Entry>, height: int, hash: Hash)
    requires Ascending(s)
    requires height in ToMap(s) && ToMap(s)[height] == hash
    ensures Put(s, height, hash) == s
  {
    if height < s[0].height {
      ToMapKeys(s);
      assert false;
    } else if height == s[0].height {
    } else {
      PutPresent(s[1..], height, hash);
    }
  }

  /**
   The key `TryGetHeight` reads from its first-match scan: the height of the
   first entry in enumeration order whose hash matches, or the default key 0.
   */
  function FirstMatch(s: seq<Entry>, hash: Hash): (r: int)
    ensures r == 0 || exists i :: 0 <= i < |s| && s[i] == Entry(r, hash)
  {
    if s == [] then 0
    else if s[0].hash == hash then s[0].height
    else FirstMatch(s[1..], hash)
  }

  /** Some binding of the dictionary has value `hash`. */
  predicate Holds(s: seq<Entry>, hash: Hash) {
    exists k :: k in ToMap(s) && ToMap(s)[k] == hash
  }

  /**
   On an ascending sequence the first match in enumeration order is the
   smallest key bound to `hash`; with no match the default key 0 comes back.
   */
  lemma {:induction false} FirstMatchIsLeast(s: seq<Entry>, hash: Hash)
    requires Ascending(s)
    ensures Holds(s, hash) ==>
      var k := FirstMatch(s, hash);
      k in ToMap(s) && ToMap(s)[k] == hash &&
      forall j :: j in ToMap(s) && ToMap(s)[j] == hash ==> k <= j
    ensures !Holds(s, hash) ==> FirstMatch(s, hash) == 0
  {
    if s != [] {
      FirstMatchIsLeast(s[1..], hash);
      ToMapKeys(s[1..]);
      var m, m' := ToMap(s), ToMap(s[1..]);
      assert forall j :: j in m' ==> s[0].height < j by {
        forall j | j in m' ensures s[0].height < j {
          var e :| e in s[1..] && e.height == j;
          var i :| 0 <= i < |s[1..]| && s[1..][i] == e;
          assert s[i + 1] == e;
        }
      }
      if s[0].hash == hash {
        assert m[s[0].height] == hash;
      } else {
        assert forall j :: j in m && m[j] == hash ==> j in m' && m'[j] == hash;
        if Holds(s[1..], hash) {
          var k := FirstMatch(s[1..], hash);
          assert m[k] == hash;
        }
      }
    }
  }
}
