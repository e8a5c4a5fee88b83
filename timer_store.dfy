/** timer_map_: a multimap from expiration to timer, modelled as a sequence of
    (key, timer id) entries kept in ascending key order. */
module TimerStore {
  import opened TimerEntry

  datatype Entry = Entry(key: Tick, id: TimerId)

  /** Ascending key order, equal keys allowed. */
  predicate Sorted(s: seq<Entry>) {
    forall i, j :: 0 <= i < j < |s| ==> s[i].key <= s[j].key
  }

  /** No timer is in the store twice. */
  predicate Distinct(s: seq<Entry>) {
    forall i, j :: 0 <= i < j < |s| ==> s[i].id != s[j].id
  }

  /** The position at which the multimap inserts a new entry with key `key`:
      after every entry whose key is not greater. */
  function UpperBound(s: seq<Entry>, key: Tick): (k: nat)
    requires Sorted(s)
    ensures k <= |s|
    ensures forall i :: 0 <= i < k ==> s[i].key <= key
    ensures forall i :: k <= i < |s| ==> key < s[i].key
  {
    if s == [] || key < s[0].key then 0
    else
      SortedTail(s);
      var k := UpperBound(s[1..], key);
      assert forall i :: 1 <= i <= k ==> s[i] == s[1..][i - 1];
      1 + k
  }

  /** emplace: walks past every entry whose key is not greater than the new one and
      places the new entry there, so equal keys keep their insertion order. */
  function Insert(s: seq<Entry>, e: Entry): (r: seq<Entry>)
    ensures |r| == |s| + 1
    ensures multiset(r) == multiset(s) + multiset{e}
  {
    if s == [] || e.key < s[0].key then [e] + s
    else
      assert s == [s[0]] + s[1..];
      [s[0]] + Insert(s[1..], e)
  }

  /** A new entry whose key is not below the head's goes behind the head: inserting and
      then erasing the head is inserting into the rest. */
  lemma InsertBehindHead(s: seq<Entry>, e: Entry)
    requires s != [] && s[0].key <= e.key
    ensures Insert(s, e)[0] == s[0] && Insert(s, e)[1..] == Insert(s[1..], e)
  {
  }

  /** An entry is in the store after the insertion exactly when it was inserted or was
      there before. */
  lemma InsertMembers(s: seq<Entry>, e: Entry)
    ensures forall x :: x in Insert(s, e) <==> x == e || x in s
  {
    forall x ensures x in Insert(s, e) <==> x == e || x in s {
      assert x in Insert(s, e) <==> x in multiset(Insert(s, e));
      assert x in s <==> x in multiset(s);
    }
  }

  /** Insertion keeps the store in ascending key order. */
  lemma {:induction false} InsertSorted(s: seq<Entry>, e: Entry)
    requires Sorted(s)
    ensures Sorted(Insert(s, e))
  {
    if s != [] && s[0].key <= e.key {
      var t := s[1..];
      SortedTail(s);
      InsertSorted(t, e);
      var r', r := Insert(t, e), Insert(s, e);
      InsertMembers(t, e);
      HeadIsMinimum(s);
      forall i, j | 0 <= i < j < |r| ensures r[i].key <= r[j].key {
        assert r[j] == r'[j - 1] && r[j] in r';
        if i > 0 {
          assert r[i] == r'[i - 1];
        } else if r[j] != e {
          assert r[j] in s;
        }
      }
    }
  }

  /** Where emplace puts the new entry: at the upper bound of its key, with every old
      entry kept in its old order around it. */
  lemma {:induction false} InsertPlacement(s: seq<Entry>, e: Entry)
    requires Sorted(s)
    ensures var k := UpperBound(s, e.key); Insert(s, e) == s[..k] + [e] + s[k..]
  {
    if s != [] && s[0].key <= e.key {
      var t := s[1..];
      SortedTail(s);
      var k := UpperBound(t, e.key);
      assert Insert(t, e) == t[..k] + [e] + t[k..] by {
        InsertPlacement(t, e);
      }
      assert UpperBound(s, e.key) == 1 + k;
      SpliceBehindHead(s, e, k);
    }
  }

  /** Putting the head back in front of a splice of the rest is the splice one further on. */
  lemma SpliceBehindHead(s: seq<Entry>, e: Entry, k: nat)
    requires s != [] && k <= |s| - 1
    ensures [s[0]] + (s[1..][..k] + [e] + s[1..][k..]) == s[..1 + k] + [e] + s[1 + k..]
  {
    assert s[..1 + k] == [s[0]] + s[1..][..k];
    assert s[1 + k..] == s[1..][k..];
  }

  /** A sorted store stays sorted without its head. */
  lemma SortedTail(s: seq<Entry>)
    requires Sorted(s) && s != []
    ensures Sorted(s[1..])
  {
    forall i, j | 0 <= i < j < |s| - 1 ensures s[1..][i].key <= s[1..][j].key {
      assert s[1..][i] == s[i + 1] && s[1..][j] == s[j + 1];
    }
  }

  /** Inserting a timer that is not yet in the store keeps every timer in it once. */
  lemma {:induction false} InsertDistinct(s: seq<Entry>, e: Entry)
    requires Distinct(s)
    requires forall x :: x in s ==> x.id != e.id
    ensures Distinct(Insert(s, e))
  {
    var r := Insert(s, e);
    if s == [] || e.key < s[0].key {
      forall i, j | 0 <= i < j < |r| ensures r[i].id != r[j].id {
        assert r[j] == s[j - 1] && r[j] in s;
        if i > 0 {
          assert r[i] == s[i - 1];
        }
      }
    } else {
      var t := s[1..];
      DistinctHead(s);
      InsertDistinct(t, e);
      var r' := Insert(t, e);
      InsertMembers(t, e);
      forall i, j | 0 <= i < j < |r| ensures r[i].id != r[j].id {
        assert r[j] == r'[j - 1] && r[j] in r';
        if i > 0 {
          assert r[i] == r'[i - 1];
        } else if r[j] != e {
          assert r[j] in t;
        } else {
          assert s[0] in s;
        }
      }
    }
  }

  /** The head of a store without repeated timers shares its timer with no other entry. */
  lemma DistinctHead(s: seq<Entry>)
    requires Distinct(s) && s != []
    ensures Distinct(s[1..])
    ensures forall x :: x in s[1..] ==> x.id != s[0].id
  {
    forall x | x in s[1..] ensures x.id != s[0].id {
      var i :| 0 <= i < |s[1..]| && s[1..][i] == x;
      assert s[i + 1] == x;
    }
  }

  /** The first entry of a sorted store holds the smallest key. */
  lemma HeadIsMinimum(s: seq<Entry>)
    requires Sorted(s)
    ensures s != [] ==> forall x :: x in s ==> s[0].key <= x.key
  {
    forall x | x in s ensures s[0].key <= x.key {
      var i :| 0 <= i < |s| && s[i] == x;
      if i > 0 {
        assert s[0].key <= s[i].key;
      }
    }
  }
}
