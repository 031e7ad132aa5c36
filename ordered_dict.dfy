/** An insertion-ordered dictionary from string keys to values, kept as a
    sequence of entries. It is the shape of a translation list (culture name to
    text) and of an exported CSV record (column name to cell). Lookup returns the
    first entry with the key, as `FirstOrDefault` does. */
module OrderedDict {
  import opened Wrappers

  datatype Entry<V> = Entry(key: string, value: V)

  ghost function Keys<V>(es: seq<Entry<V>>): set<string> {
    set e | e in es :: e.key
  }

  ghost predicate DistinctKeys<V>(es: seq<Entry<V>>) {
    forall i, j :: 0 <= i < j < |es| ==> es[i].key != es[j].key
  }

  /** Position of the first entry with key `k`, or `|es|` when there is none. */
  function IndexOf<V>(es: seq<Entry<V>>, k: string): (i: nat)
    ensures i <= |es|
    ensures i < |es| ==> es[i].key == k
    ensures forall j :: 0 <= j < i ==> es[j].key != k
    ensures i == |es| <==> k !in Keys(es)
  {
    if es == [] then 0
    else if es[0].key == k then 0
    else
      var j := 1 + IndexOf(es[1..], k);
      assert forall e :: e in es[1..] ==> e in es;
      assert k in Keys(es) ==> k in Keys(es[1..]) by {
        if k in Keys(es) {
          var e :| e in es && e.key == k;
          assert e != es[0];
        }
      }
      j
  }

  /** The value of the first entry with key `k`. */
  function Get<V>(es: seq<Entry<V>>, k: string): (r: Option<V>)
    ensures r.Some? <==> k in Keys(es)
    ensures r.Some? ==> Entry(k, r.value) in es
  {
    var i := IndexOf(es, k);
    if i < |es| then Some(es[i].value) else None
  }

  /** Overwrites the value of the entry with key `k`, or appends a new entry
      when there is none. */
  function Upsert<V>(es: seq<Entry<V>>, k: string, v: V): seq<Entry<V>> {
    var i := IndexOf(es, k);
    if i < |es| then es[i := Entry(k, v)] else es + [Entry(k, v)]
  }

  /** `IndexOf` is determined by its contract. */
  lemma IndexOfIs<V>(es: seq<Entry<V>>, k: string, i: nat)
    requires i <= |es|
    requires i < |es| ==> es[i].key == k
    requires forall j :: 0 <= j < i ==> es[j].key != k
    ensures IndexOf(es, k) == i
  {
  }

  /** With distinct keys, each entry's key looks up that entry's value. */
  lemma GetAt<V>(es: seq<Entry<V>>, i: nat)
    requires DistinctKeys(es)
    requires i < |es|
    ensures Get(es, es[i].key) == Some(es[i].value)
  {
    IndexOfIs(es, es[i].key, i);
  }

  /** After an upsert the key has the new value and every other key keeps its value. */
  lemma UpsertGet<V>(es: seq<Entry<V>>, k: string, v: V, k': string)
    ensures Get(Upsert(es, k, v), k') == if k' == k then Some(v) else Get(es, k')
  {
    var i, r := IndexOf(es, k), Upsert(es, k, v);
    if k' == k {
      IndexOfIs(r, k, i);
    } else if IndexOf(es, k') < |es| {
      IndexOfIs(r, k', IndexOf(es, k'));
    } else {
      IndexOfIs(r, k', |r|);
    }
  }

  /** An upsert adds the key to the key set and nothing else. */
  lemma UpsertKeys<V>(es: seq<Entry<V>>, k: string, v: V)
    ensures Keys(Upsert(es, k, v)) == Keys(es) + {k}
  {
    forall x ensures x in Keys(Upsert(es, k, v)) <==> x in Keys(es) + {k} {
      UpsertGet(es, k, v, x);
    }
  }

  /** The shape of an upsert onto a key that is already present: same length,
      that entry's value replaced in place, every other entry unchanged. */
  lemma UpsertExisting<V>(es: seq<Entry<V>>, k: string, v: V)
    requires k in Keys(es)
    ensures |Upsert(es, k, v)| == |es|
    ensures Upsert(es, k, v)[IndexOf(es, k)] == Entry(k, v)
    ensures forall j :: 0 <= j < |es| && j != IndexOf(es, k) ==> Upsert(es, k, v)[j] == es[j]
  {
  }

  /** The shape of an upsert of a missing key: a new entry at the end. */
  lemma UpsertMissing<V>(es: seq<Entry<V>>, k: string, v: V)
    requires k !in Keys(es)
    ensures Upsert(es, k, v) == es + [Entry(k, v)]
  {
  }

  /** An upsert never introduces a second entry for a key. */
  lemma UpsertKeepsDistinct<V>(es: seq<Entry<V>>, k: string, v: V)
    requires DistinctKeys(es)
    ensures DistinctKeys(Upsert(es, k, v))
  {
    var r := Upsert(es, k, v);
    if k !in Keys(es) {
      forall i | 0 <= i < |es| ensures es[i].key != k {
        assert es[i] in es;
      }
    }
  }

  /** Upserts every entry of `us` in order, so a later entry wins. */
  function UpsertAll<V>(es: seq<Entry<V>>, us: seq<Entry<V>>): seq<Entry<V>> {
    if us == [] then es
    else Upsert(UpsertAll(es, us[..|us| - 1]), us[|us| - 1].key, us[|us| - 1].value)
  }

  /** The value of the LAST entry with key `k`. */
  function GetLast<V>(us: seq<Entry<V>>, k: string): Option<V> {
    if us == [] then None
    else if us[|us| - 1].key == k then Some(us[|us| - 1].value)
    else GetLast(us[..|us| - 1], k)
  }

  /** After upserting `us`, a key takes the value of its last entry in `us`,
      and a key `us` does not mention keeps the value it had. */
  lemma {:induction false} UpsertAllGet<V>(es: seq<Entry<V>>, us: seq<Entry<V>>, k: string)
    ensures Get(UpsertAll(es, us), k) == if GetLast(us, k).Some? then GetLast(us, k) else Get(es, k)
  {
    if us != [] {
      var last := us[|us| - 1];
      UpsertAllGet(es, us[..|us| - 1], k);
      UpsertGet(UpsertAll(es, us[..|us| - 1]), last.key, last.value, k);
    }
  }

  lemma KeysSnoc<V>(es: seq<Entry<V>>, e: Entry<V>)
    ensures Keys(es + [e]) == Keys(es) + {e.key}
  {
    assert forall x | x in es + [e] :: x in es || x == e;
    assert forall x | x in es :: x in es + [e];
  }

  /** Upserting a list adds exactly its keys. */
  lemma {:induction false} UpsertAllKeys<V>(es: seq<Entry<V>>, us: seq<Entry<V>>)
    ensures Keys(UpsertAll(es, us)) == Keys(es) + Keys(us)
  {
    if us != [] {
      var init, last := us[..|us| - 1], us[|us| - 1];
      UpsertAllKeys(es, init);
      UpsertKeys(UpsertAll(es, init), last.key, last.value);
      assert us == init + [last];
      KeysSnoc(init, last);
    }
  }

  /** Upserting a list of entries keeps the keys distinct. */
  lemma {:induction false} UpsertAllKeepsDistinct<V>(es: seq<Entry<V>>, us: seq<Entry<V>>)
    requires DistinctKeys(es)
    ensures DistinctKeys(UpsertAll(es, us))
  {
    if us != [] {
      UpsertAllKeepsDistinct(es, us[..|us| - 1]);
      UpsertKeepsDistinct(UpsertAll(es, us[..|us| - 1]), us[|us| - 1].key, us[|us| - 1].value);
    }
  }

  /** When keys are distinct, the last entry with a key is the first one. */
  lemma {:induction false} GetLastIsGet<V>(us: seq<Entry<V>>, k: string)
    requires DistinctKeys(us)
    ensures GetLast(us, k) == Get(us, k)
  {
    if us != [] {
      var init := us[..|us| - 1];
      GetLastIsGet(init, k);
      if us[|us| - 1].key == k {
        assert k !in Keys(init) by {
          forall e | e in init ensures e.key != k {
            var j :| 0 <= j < |init| && init[j] == e;
          }
        }
        assert IndexOf(us, k) == |us| - 1;
      } else {
        var a, b := IndexOf(us, k), IndexOf(init, k);
        assert a < |init| ==> us[a] == init[a];
        assert b < |init| ==> us[b] == init[b];
        if b == |init| {
          assert k !in Keys(us) by {
            forall e | e in us ensures e.key != k {
              var j :| 0 <= j < |us| && us[j] == e;
              if j < |init| { assert init[j] in init; }
            }
          }
        }
      }
    }
  }
}
