/**
 * A plain JavaScript object with boolean values, as the sequence of its own
 * entries in property order, and the two standard operations the feature
 * bitmap code is built from: `Object.entries` (the sequence itself) and
 * `Object.fromEntries` (a left-to-right fold of property assignments, so a
 * later entry overwrites the value of an earlier one with the same key while
 * the key keeps the position of its first insertion).
 */
module ObjectEntries {
  import opened Wrappers

  /** One own property: a string key and its value. */
  datatype Entry = Entry(name: string, value: bool)

  /** The keys of a sequence of entries, in order. */
  function Names(es: seq<Entry>): seq<string>
  {
    seq(|es|, i requires 0 <= i < |es| => es[i].name)
  }

  predicate Distinct(ns: seq<string>)
  {
    forall i, j :: 0 <= i < j < |ns| ==> ns[i] != ns[j]
  }

  /** The entries of an object: no key occurs twice. */
  predicate IsObject(es: seq<Entry>)
  {
    Distinct(Names(es))
  }

  /** Position of the first entry with key `name`, or `|es|` when there is none. */
  function IndexOf(es: seq<Entry>, name: string): (i: nat)
    ensures i <= |es|
    ensures i < |es| ==> es[i].name == name
    ensures forall j :: 0 <= j < i ==> es[j].name != name
  {
    if es == [] then 0
    else if es[0].name == name then 0
    else 1 + IndexOf(es[1..], name)
  }

  /** Property lookup `obj[name]`, `None` standing for `undefined`. */
  function Get(es: seq<Entry>, name: string): (r: Option<bool>)
    ensures r.Some? <==> name in Names(es)
  {
    var i := IndexOf(es, name);
    if i < |es| then
      assert Names(es)[i] == name;
      Some(es[i].value)
    else
      assert forall j :: 0 <= j < |es| ==> Names(es)[j] != name;
      None
  }

  /** Property assignment `obj[e.name] = e.value`: an existing key is overwritten in place, a new key is appended. */
  function Put(es: seq<Entry>, e: Entry): (r: seq<Entry>)
    ensures Names(r) == if e.name in Names(es) then Names(es) else Names(es) + [e.name]
  {
    var i := IndexOf(es, e.name);
    if i < |es| then
      assert Names(es)[i] == e.name;
      assert Names(es[i := e]) == Names(es);
      es[i := e]
    else
      assert forall j :: 0 <= j < |es| ==> Names(es)[j] != e.name;
      assert Names(es + [e]) == Names(es) + [e.name];
      es + [e]
  }

  /** `Object.fromEntries(es)`: assign the entries one after another, first to last. */
  function FromEntries(es: seq<Entry>): seq<Entry>
  {
    if es == [] then [] else Put(FromEntries(es[..|es| - 1]), es[|es| - 1])
  }

  /** Reference for "the later entry wins": the value of the last entry with key `name`. */
  function LastValue(es: seq<Entry>, name: string): Option<bool>
  {
    if es == [] then None
    else if es[|es| - 1].name == name then Some(es[|es| - 1].value)
    else LastValue(es[..|es| - 1], name)
  }

  /** The keys in order of first occurrence, each once. */
  function Dedup(ns: seq<string>): seq<string>
  {
    if ns == [] then []
    else
      var d := Dedup(ns[..|ns| - 1]);
      if ns[|ns| - 1] in d then d else d + [ns[|ns| - 1]]
  }

  lemma IndexOfUnique(es: seq<Entry>, name: string, j: nat)
    requires j <= |es|
    requires j < |es| ==> es[j].name == name
    requires forall l :: 0 <= l < j ==> es[l].name != name
    ensures IndexOf(es, name) == j
  {
  }

  /** Reading a key after an assignment sees the assigned value, and only that key changes. */
  lemma GetPut(es: seq<Entry>, e: Entry, name: string)
    ensures Get(Put(es, e), name) == if name == e.name then Some(e.value) else Get(es, name)
  {
    var i := IndexOf(es, e.name);
    var r := Put(es, e);
    if i < |es| {
      assert r == es[i := e];
      if name == e.name {
        IndexOfUnique(r, name, i);
      } else {
        assert forall l :: 0 <= l < |r| ==> r[l].name == es[l].name;
        var k := IndexOf(es, name);
        IndexOfUnique(r, name, k);
        assert k < |es| ==> k != i;
      }
    } else {
      assert r == es + [e];
      if name == e.name {
        IndexOfUnique(r, name, |es|);
      } else {
        var k := IndexOf(es, name);
        if k < |es| {
          IndexOfUnique(r, name, k);
        } else {
          IndexOfUnique(r, name, |r|);
        }
      }
    }
  }

  /** Names of a prefix are the prefix of the names. */
  lemma NamesPrefix(es: seq<Entry>, n: nat)
    requires n <= |es|
    ensures Names(es[..n]) == Names(es)[..n]
  {
  }

  lemma {:induction false} DedupSpec(ns: seq<string>)
    ensures Distinct(Dedup(ns))
    ensures forall x :: x in Dedup(ns) <==> x in ns
    ensures |Dedup(ns)| <= |ns|
    ensures |Dedup(ns)| == |ns| <==> Distinct(ns)
  {
    if ns != [] {
      var p, x := ns[..|ns| - 1], ns[|ns| - 1];
      DedupSpec(p);
      assert ns == p + [x];
      var d := Dedup(p);
      if x in d {
        assert x in p;
        assert !Distinct(ns) by {
          var j :| 0 <= j < |p| && p[j] == x;
          assert ns[j] == ns[|ns| - 1];
        }
      } else {
        assert Distinct(ns) <==> Distinct(p) by {
          if Distinct(p) {
            forall i, j | 0 <= i < j < |ns| ensures ns[i] != ns[j] {
              if j == |ns| - 1 {
                assert ns[i] == p[i];
              } else {
                assert ns[i] == p[i] && ns[j] == p[j];
              }
            }
          }
          if Distinct(ns) {
            forall i, j | 0 <= i < j < |p| ensures p[i] != p[j] {
              assert ns[i] == p[i] && ns[j] == p[j];
            }
          }
        }
      }
    }
  }

  /** The keys of `Object.fromEntries(es)` are those of `es`, in order of first occurrence. */
  lemma {:induction false} FromEntriesNames(es: seq<Entry>)
    ensures Names(FromEntries(es)) == Dedup(Names(es))
  {
    if es != [] {
      var p := es[..|es| - 1];
      FromEntriesNames(p);
      NamesPrefix(es, |es| - 1);
    }
  }

  /** Every key of `Object.fromEntries(es)` holds the value of the last entry with that key. */
  lemma {:induction false} FromEntriesGet(es: seq<Entry>, name: string)
    ensures Get(FromEntries(es), name) == LastValue(es, name)
  {
    if es != [] {
      var p := es[..|es| - 1];
      FromEntriesGet(p, name);
      GetPut(FromEntries(p), es[|es| - 1], name);
    }
  }

  /** `LastValue` is exactly the value of the last entry carrying the key, in both directions. */
  lemma {:induction false} LastValueIsLast(es: seq<Entry>, name: string, v: bool)
    ensures LastValue(es, name) == Some(v) <==>
              exists i :: 0 <= i < |es| && es[i] == Entry(name, v) && forall j :: i < j < |es| ==> es[j].name != name
  {
    if es != [] {
      var p, last := es[..|es| - 1], es[|es| - 1];
      LastValueIsLast(p, name, v);
      if last.name != name {
        if exists i :: 0 <= i < |es| && es[i] == Entry(name, v) && forall j :: i < j < |es| ==> es[j].name != name {
          var i :| 0 <= i < |es| && es[i] == Entry(name, v) && forall j :: i < j < |es| ==> es[j].name != name;
          assert i < |p| && p[i] == Entry(name, v);
          assert forall j :: i < j < |p| ==> p[j].name != name by {
            forall j | i < j < |p| ensures p[j].name != name {
              assert p[j] == es[j];
            }
          }
        }
        if LastValue(es, name) == Some(v) {
          var i :| 0 <= i < |p| && p[i] == Entry(name, v) && forall j :: i < j < |p| ==> p[j].name != name;
          assert es[i] == Entry(name, v);
        }
      } else if LastValue(es, name) != Some(v) {
        assert last.value != v;
        forall i | 0 <= i < |es| && es[i] == Entry(name, v)
          ensures exists j :: i < j < |es| && es[j].name == name
        {
          assert i != |es| - 1;
          assert i < |es| - 1 && es[|es| - 1].name == name;
        }
      }
    }
  }

  /** A key has a last value exactly when some entry carries it. */
  lemma {:induction false} LastValueDefined(es: seq<Entry>, name: string)
    ensures LastValue(es, name).Some? <==> name in Names(es)
  {
    if es != [] {
      var p := es[..|es| - 1];
      LastValueDefined(p, name);
      NamesPrefix(es, |es| - 1);
      assert Names(es) == Names(p) + [es[|es| - 1].name];
    }
  }

  /** `Object.fromEntries` builds an object holding, for each key of `es`, the value of its last entry. */
  lemma FromEntriesSpec(es: seq<Entry>)
    ensures IsObject(FromEntries(es))
    ensures Names(FromEntries(es)) == Dedup(Names(es))
    ensures forall name :: name in Names(FromEntries(es)) <==> name in Names(es)
    ensures forall name :: Get(FromEntries(es), name) == LastValue(es, name)
    ensures |FromEntries(es)| <= |es|
    ensures |FromEntries(es)| == |es| <==> IsObject(es)
  {
    FromEntriesNames(es);
    DedupSpec(Names(es));
    forall name ensures Get(FromEntries(es), name) == LastValue(es, name) {
      FromEntriesGet(es, name);
    }
  }

  /** Round trip: `Object.fromEntries(Object.entries(o))` is `o` itself, keys in the same order. */
  lemma {:induction false} FromEntriesOfObject(es: seq<Entry>)
    requires IsObject(es)
    ensures FromEntries(es) == es
  {
    if es != [] {
      var p, last := es[..|es| - 1], es[|es| - 1];
      NamesPrefix(es, |es| - 1);
      assert IsObject(p);
      FromEntriesOfObject(p);
      assert last.name !in Names(p) by {
        assert forall j :: 0 <= j < |p| ==> Names(p)[j] == Names(es)[j];
        assert Names(es)[|es| - 1] == last.name;
      }
      assert es == p + [last];
    }
  }
}
