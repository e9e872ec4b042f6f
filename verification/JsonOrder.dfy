/** The value of an object does not depend on the order of its entries, and every value
    can be iterated. */
module JsonOrder {
  import opened JsonSpec

  ghost predicate DistinctKeys<N>(entries: seq<Entry<N>>)
  {
    forall i, j :: 0 <= i < j < |entries| ==> entries[i].key != entries[j].key
  }

  ghost predicate HasKey<N>(entries: seq<Entry<N>>, k: string)
  {
    exists i :: 0 <= i < |entries| && entries[i].key == k
  }

  /** Folding entries into a map: every entry is there, and the rest is as it was. */
  lemma {:induction false} MapOfEntries<N>(m: map<string, Json<N>>, entries: seq<Entry<N>>)
    requires DistinctKeys(entries)
    ensures forall i :: 0 <= i < |entries| ==>
              entries[i].key in MapOf(m, entries) && MapOf(m, entries)[entries[i].key] == ValueOf(entries[i].value)
    ensures forall k :: !HasKey(entries, k) ==>
              (k in MapOf(m, entries) <==> k in m) && (k in m ==> MapOf(m, entries)[k] == m[k])
    decreases entries
  {
    if |entries| > 0 {
      var first, rest := entries[0], entries[1..];
      var m' := m[first.key := ValueOf(first.value)];
      MapOfEntries(m', rest);
      var r := MapOf(m, entries);
      assert !HasKey(rest, first.key);
      forall i | 0 <= i < |entries|
        ensures entries[i].key in r && r[entries[i].key] == ValueOf(entries[i].value)
      {
        if i > 0 { assert entries[i] == rest[i - 1]; }
      }
      forall k | !HasKey(entries, k)
        ensures (k in r <==> k in m) && (k in m ==> r[k] == m[k])
      {
        assert entries[0].key == first.key;
        assert forall i :: 0 <= i < |rest| ==> rest[i].key == entries[i + 1].key;
      }
    }
  }

  /** Two orders of the same entries give the same object. */
  lemma OrderIrrelevant<N>(a: seq<Entry<N>>, b: seq<Entry<N>>)
    requires DistinctKeys(a) && DistinctKeys(b)
    requires forall e :: e in a <==> e in b
    ensures ValueOf(TObj(a)) == ValueOf(TObj(b))
  {
    MapOfEntries(map[], a);
    MapOfEntries(map[], b);
    forall k
      ensures k in MapOf(map[], a) <==> k in MapOf(map[], b)
      ensures k in MapOf(map[], a) ==> MapOf(map[], a)[k] == MapOf(map[], b)[k]
    {
      SameKeys(a, b, k);
      SameKeys(b, a, k);
      if HasKey(a, k) {
        var i :| 0 <= i < |a| && a[i].key == k;
        assert a[i] in b;
      }
    }
  }

  lemma SameKeys<N>(a: seq<Entry<N>>, b: seq<Entry<N>>, k: string)
    requires forall e :: e in a ==> e in b
    ensures HasKey(a, k) ==> HasKey(b, k)
  {
    if HasKey(a, k) {
      var i :| 0 <= i < |a| && a[i].key == k;
      assert a[i] in b;
    }
  }

  /** Every value has some iteration order. */
  lemma {:induction false} HasOrder<N>(j: Json<N>) returns (t: Tree<N>)
    ensures ValueOf(t) == j
    decreases j
  {
    match j
    case Null => t := TNull;
    case Bool(b) => t := TBool(b);
    case Number(n) => t := TNumber(n);
    case Str(s) => t := TStr(s);
    case Arr(items) =>
      var ts := ItemsHaveOrder(items);
      t := TArr(ts);
    case Obj(members) =>
      var es := MembersHaveOrder(j, members.Keys);
      t := TObj(es);
      MapOfEntries(map[], es);
      assert MapOf(map[], es) == members;
  }

  lemma {:induction false} ItemsHaveOrder<N>(items: seq<Json<N>>) returns (ts: seq<Tree<N>>)
    ensures ValuesOf(ts) == items
    decreases items
  {
    ts := [];
    if |items| > 0 {
      var t := HasOrder(items[0]);
      var rest := ItemsHaveOrder(items[1..]);
      ts := [t] + rest;
    }
  }

  /** Entries for the members with the given keys. */
  lemma {:induction false} MembersHaveOrder<N>(j: Json<N>, keys: set<string>) returns (es: seq<Entry<N>>)
    requires j.Obj? && keys <= j.members.Keys
    ensures DistinctKeys(es)
    ensures forall i :: 0 <= i < |es| ==> es[i].key in keys && ValueOf(es[i].value) == j.members[es[i].key]
    ensures forall k :: k in keys ==> HasKey(es, k)
    decreases j, |keys|
  {
    es := [];
    if keys != {} {
      var k :| k in keys;
      var t := HasOrder(j.members[k]);
      var rest := MembersHaveOrder(j, keys - {k});
      es := [Entry(k, t)] + rest;
      forall k' | k' in keys
        ensures HasKey(es, k')
      {
        if k' == k {
          assert es[0].key == k';
        } else {
          assert HasKey(rest, k');
          var i :| 0 <= i < |rest| && rest[i].key == k';
          assert es[i + 1].key == k';
        }
      }
    }
  }
}
