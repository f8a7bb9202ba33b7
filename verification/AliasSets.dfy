/** The reduction of alias sets to the maximal ones (get_aliased_pair.py). */
module AliasSets {

  /** The key of a memory location. */
  type Key = nat

  /** An access at a source location. */
  datatype Insn = Insn(loc: string, write: bool)

  type Sets = map<Key, set<Insn>>

  /** The retained sets `m` stand for all added ones: each is one of them, each of them is
      contained in one, and none contains another. */
  ghost predicate Reduced(m: Sets, added: set<set<Insn>>) {
    && (forall k :: k in m ==> m[k] in added)
    && (forall s :: s in added ==> exists k :: k in m && s <= m[k])
    && (forall j, k :: j in m && k in m && m[j] <= m[k] ==> j == k)
  }

  ghost predicate Retained(m: Sets, s: set<Insn>) {
    exists k :: k in m && m[k] == s
  }

  ghost predicate Maximal(s: set<Insn>, all: set<set<Insn>>) {
    s in all && forall t :: t in all && s <= t ==> s == t
  }

  /** The retained sets are exactly the maximal ones among those added. */
  lemma ReducedIsMaximal(m: Sets, added: set<set<Insn>>, s: set<Insn>)
    requires Reduced(m, added)
    ensures Maximal(s, added) <==> Retained(m, s)
  {
  }

  /** Whether `s` is contained in a retained set under another key. */
  predicate Contained(m: Sets, key: Key, s: set<Insn>) {
    exists k :: k in m && k != key && s <= m[k]
  }

  /** The sets after adding `s` under `key`. */
  function Added(m: Sets, key: Key, s: set<Insn>): Sets {
    if |s| == 1 then m
    else if Contained(m, key, s) then m - {key}
    else (map k | k in m && k != key && !(m[k] <= s) :: m[k])[key := s]
  }

  function Extended(added: set<set<Insn>>, s: set<Insn>): set<set<Insn>> {
    if |s| == 1 then added else added + {s}
  }

  /** `s` is contained in no retained set; those it contains give way to it. */
  lemma AddedCovers(m: Sets, added: set<set<Insn>>, key: Key, s: set<Insn>, m': Sets, t: set<Insn>)
    requires Reduced(m, added) && key in m' && m'[key] == s && (t in added || t == s)
    requires forall k :: k in m && !(m[k] <= s) ==> k in m' && m'[k] == m[k]
    ensures exists k :: k in m' && t <= m'[k]
  {
  }

  lemma AddedNew(m: Sets, added: set<set<Insn>>, key: Key, s: set<Insn>, m': Sets)
    requires Reduced(m, added) && forall k :: k in m ==> !(s <= m[k])
    requires key in m' && m'[key] == s
    requires forall k :: k in m && !(m[k] <= s) ==> k in m' && m'[k] == m[k]
    requires forall k :: k in m' && k != key ==> k in m && m'[k] == m[k] && !(m[k] <= s)
    ensures Reduced(m', added + {s})
  {
    forall t | t in added + {s} ensures exists k :: k in m' && t <= m'[k] {
      AddedCovers(m, added, key, s, m', t);
    }
    forall j, k | j in m' && k in m' && m'[j] <= m'[k] ensures j == k {
      assert j != key && k != key ==> m[j] <= m[k];
      assert k != key ==> !(s <= m[k]);
    }
  }

  lemma AddedContained(m: Sets, added: set<set<Insn>>, s: set<Insn>, k: Key)
    requires Reduced(m, added) && k in m && s <= m[k]
    ensures Reduced(m, added + {s})
  {
  }

  lemma AddedReduced(m: Sets, added: set<set<Insn>>, key: Key, s: set<Insn>)
    requires Reduced(m, added) && key !in m
    ensures Reduced(Added(m, key, s), Extended(added, s))
  {
    if |s| != 1 {
      if Contained(m, key, s) {
        var k :| k in m && k != key && s <= m[k];
        AddedContained(m, added, s, k);
        assert m - {key} == m;
      } else {
        assert forall k :: k in m ==> !(s <= m[k]);
        AddedNew(m, added, key, s, Added(m, key, s));
      }
    }
  }

  /** A series of additions. */
  function AddAll(adds: seq<(Key, set<Insn>)>): Sets {
    if adds == [] then map[]
    else var n := |adds| - 1; Added(AddAll(adds[..n]), adds[n].0, adds[n].1)
  }

  /** The sets added, but for those of size one. */
  function Input(adds: seq<(Key, set<Insn>)>): set<set<Insn>> {
    if adds == [] then {} else Extended(Input(adds[..|adds| - 1]), adds[|adds| - 1].1)
  }

  ghost predicate DistinctKeys(adds: seq<(Key, set<Insn>)>) {
    forall i, j :: 0 <= i < j < |adds| ==> adds[i].0 != adds[j].0
  }

  lemma {:induction false} AddAllKeys(adds: seq<(Key, set<Insn>)>, k: Key)
    requires k in AddAll(adds)
    ensures exists i :: 0 <= i < |adds| && adds[i].0 == k
  {
    if adds != [] {
      var n := |adds| - 1;
      if k in AddAll(adds[..n]) {
        AddAllKeys(adds[..n], k);
        var i :| 0 <= i < n && adds[..n][i].0 == k;
        assert adds[i].0 == k;
      } else {
        assert adds[n].0 == k;
      }
    }
  }

  lemma {:induction false} AddAllReduced(adds: seq<(Key, set<Insn>)>)
    requires DistinctKeys(adds)
    ensures Reduced(AddAll(adds), Input(adds))
  {
    if adds != [] {
      var n := |adds| - 1;
      AddAllReduced(adds[..n]);
      forall k | k in AddAll(adds[..n]) ensures k != adds[n].0 {
        AddAllKeys(adds[..n], k);
        var i :| 0 <= i < n && adds[..n][i].0 == k;
        assert adds[i].0 == k;
      }
      AddedReduced(AddAll(adds[..n]), Input(adds[..n]), adds[n].0, adds[n].1);
    }
  }

  lemma {:induction false} InputMembers(adds: seq<(Key, set<Insn>)>, s: set<Insn>)
    ensures s in Input(adds) <==> |s| != 1 && exists i :: 0 <= i < |adds| && adds[i].1 == s
  {
    if adds != [] {
      var n := |adds| - 1;
      InputMembers(adds[..n], s);
      assert forall i :: 0 <= i < n ==> adds[..n][i] == adds[i];
    }
  }

  /** After any additions under distinct keys a set is retained exactly if it is maximal among
      the added sets of a size other than one; and no retained set contains another. */
  lemma RetainedAreMaximal(adds: seq<(Key, set<Insn>)>, s: set<Insn>)
    requires DistinctKeys(adds)
    ensures Retained(AddAll(adds), s) <==> Maximal(s, Input(adds))
    ensures var m := AddAll(adds); forall j, k :: j in m && k in m && m[j] <= m[k] ==> j == k
  {
    AddAllReduced(adds);
    var m := AddAll(adds);
    ReducedIsMaximal(m, Input(adds), s);
  }

  /** The retained sets do not depend on the order of the additions. */
  lemma OrderDoesNotMatter(adds: seq<(Key, set<Insn>)>, other: seq<(Key, set<Insn>)>)
    requires DistinctKeys(adds) && DistinctKeys(other) && multiset(adds) == multiset(other)
    ensures AddAll(adds).Values == AddAll(other).Values
  {
    forall s | s in Input(adds) ensures s in Input(other) {
      SameMembers(adds, other, s);
    }
    forall s | s in Input(other) ensures s in Input(adds) {
      SameMembers(other, adds, s);
    }
    assert Input(adds) == Input(other);
    forall s ensures s in AddAll(adds).Values <==> s in AddAll(other).Values {
      RetainedAreMaximal(adds, s);
      RetainedAreMaximal(other, s);
    }
  }

  lemma SameMembers(adds: seq<(Key, set<Insn>)>, other: seq<(Key, set<Insn>)>, s: set<Insn>)
    requires multiset(adds) == multiset(other) && s in Input(adds)
    ensures s in Input(other)
  {
    InputMembers(adds, s);
    InputMembers(other, s);
    var i :| 0 <= i < |adds| && adds[i].1 == s;
    assert adds[i] in multiset(adds);
    assert adds[i] in other;
  }

  class AliasedSetResult {
    var sets: Sets
    ghost var added: set<set<Insn>>

    ghost predicate Valid()
      reads this
    {
      Reduced(sets, added)
    }

    constructor ()
      ensures Valid() && sets == map[] && added == {}
    {
      sets, added := map[], {};
    }

    /** __is_subset */
    method IsSubset(sub: Key, super: Key) returns (r: bool)
      requires sub in sets && super in sets
      ensures r == (sets[sub] <= sets[super])
    {
      var todo := sets[sub];
      while todo != {}
        invariant todo <= sets[sub] && sets[sub] - todo <= sets[super]
        decreases |todo|
      {
        var insn :| insn in todo;
        if insn !in sets[super] {
          return false;
        }
        todo := todo - {insn};
      }
      return true;
    }

    /** The first loop of __remove_duplicate: is the set of `key` contained in another? */
    method FindSuper(key: Key) returns (r: bool)
      requires key in sets
      ensures r <==> Contained(sets, key, sets[key])
    {
      var todo := sets.Keys;
      while todo != {}
        invariant todo <= sets.Keys
        invariant forall k :: k in sets && k !in todo && k != key ==> !(sets[key] <= sets[k])
        decreases |todo|
      {
        var k :| k in todo;
        if k != key {
          var inside := IsSubset(key, k);
          if inside {
            return true;
          }
        }
        todo := todo - {k};
      }
      return false;
    }

    /** The second loop: sets contained in that of `key` go. */
    method DropSubsets(key: Key)
      requires key in sets
      modifies `sets
      ensures sets == map k | k in old(sets) && (k == key || !(old(sets)[k] <= old(sets)[key])) :: old(sets)[k]
    {
      ghost var before := sets;
      var todo := sets.Keys;
      while todo != {}
        invariant todo <= sets.Keys <= before.Keys && key in sets
        invariant forall k :: k in sets ==> sets[k] == before[k]
        invariant forall k :: k in before && k !in todo ==> (k in sets <==> k == key || !(before[k] <= before[key]))
        decreases |todo|
      {
        var k :| k in todo;
        todo := todo - {k};
        if k != key {
          var inside := IsSubset(k, key);
          if inside {
            sets := sets - {k};
          }
        }
      }
    }

    /** add, followed by __remove_duplicate */
    method Add(key: Key, s: set<Insn>)
      requires Valid() && key !in sets
      modifies this
      ensures Valid() && sets == Added(old(sets), key, s) && added == Extended(old(added), s)
    {
      AddedReduced(sets, added, key, s);
      if |s| == 1 {
        return;
      }
      added := added + {s};
      Keep(key, s);
    }

    method Keep(key: Key, s: set<Insn>)
      requires key !in sets && |s| != 1
      modifies `sets
      ensures sets == Added(old(sets), key, s)
    {
      sets := sets[key := s];
      var inside := FindSuper(key);
      assert inside <==> Contained(old(sets), key, s) by {
        assert forall k :: k in old(sets) ==> k in sets && sets[k] == old(sets)[k];
        assert forall k :: k in sets && k != key ==> k in old(sets);
      }
      if inside {
        sets := sets - {key};
      } else {
        DropSubsets(key);
      }
    }
  }
}
