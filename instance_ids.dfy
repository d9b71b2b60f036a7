/**
  Identifiers of registry entries. `createInstance` names a new entry
  `"Instance_" + mAppSdkInstances.size()`, so the name depends on how many
  entries there are now, not on how many were ever created. The lemmas
  below state what that rule guarantees when nothing is removed, and how it
  goes wrong after a removal; `FreshInstanceId` is a rule that keeps the
  same names whenever they are unused and never hands one out twice.
 */
module InstanceIds {
  import opened JavaLang

  const InstancePrefix := "Instance_"

  /** The n-th identifier, `"Instance_" + n`. */
  function InstanceId(n: nat): (id: string)
    ensures |id| > |InstancePrefix| && id[..|InstancePrefix|] == InstancePrefix
  {
    InstancePrefix + Decimal(n)
  }

  /** The identifier `createInstance` gives the next entry of registry `m`. */
  function NextId<V>(m: map<string, V>): string {
    InstanceId(|m|)
  }

  /** The first two identifiers, spelled out. */
  lemma FirstIds()
    ensures InstanceId(0) == "Instance_0" && InstanceId(1) == "Instance_1"
  {
    assert Decimal(0) == "0" && Decimal(1) == "1";
  }

  lemma InstanceIdInjective(a: nat, b: nat)
    ensures InstanceId(a) == InstanceId(b) ==> a == b
  {
    if InstanceId(a) == InstanceId(b) {
      assert Decimal(a) == InstanceId(a)[|InstancePrefix|..];
      assert Decimal(b) == InstanceId(b)[|InstancePrefix|..];
      DecimalInjective(a, b);
    }
  }

  /** The identifiers `Instance_0` up to `Instance_(n-1)`. */
  function IdsBelow(n: nat): set<string> {
    set k | 0 <= k < n :: InstanceId(k)
  }

  lemma IdsBelowNext(n: nat)
    ensures IdsBelow(n + 1) == IdsBelow(n) + {InstanceId(n)}
    ensures InstanceId(n) !in IdsBelow(n)
  {
    if InstanceId(n) in IdsBelow(n) {
      var k :| 0 <= k < n && InstanceId(k) == InstanceId(n);
      InstanceIdInjective(k, n);
    }
    forall x | x in IdsBelow(n + 1) ensures x in IdsBelow(n) + {InstanceId(n)} {
      var k :| 0 <= k < n + 1 && InstanceId(k) == x;
      if k < n { assert x in IdsBelow(n); }
    }
  }

  /** The registry holds exactly the identifiers `Instance_0` up to `Instance_(size-1)`. */
  ghost predicate DenseIds<V>(m: map<string, V>) {
    m.Keys == IdsBelow(|m|)
  }

  /**
    As long as entries are only added, the size-derived identifier is new:
    `put` adds an entry (the map grows by one) and the identifiers stay dense.
   */
  lemma InsertKeepsDenseIds<V>(m: map<string, V>, h: V)
    requires DenseIds(m)
    ensures NextId(m) !in m
    ensures |m[NextId(m) := h]| == |m| + 1
    ensures DenseIds(m[NextId(m) := h])
  {
    IdsBelowNext(|m|);
    InsertFreshKey(m, NextId(m), h);
  }

  /** Storing under a key not yet present adds exactly that key. */
  lemma InsertFreshKey<V>(m: map<string, V>, id: string, h: V)
    requires id !in m
    ensures m[id := h].Keys == m.Keys + {id}
    ensures |m[id := h]| == |m| + 1
  {
    assert m[id := h].Keys == m.Keys + {id};
  }

  /**
    Once the size-derived identifier is already in use, `put` replaces the
    live entry under it: the map does not grow and the handle it held is no
    longer reachable through that identifier.
   */
  lemma InsertOverLiveId<V>(m: map<string, V>, h: V)
    requires NextId(m) in m
    ensures |m[NextId(m) := h]| == |m|
    ensures m[NextId(m) := h].Keys == m.Keys
    ensures m[NextId(m) := h][NextId(m)] == h
  {
  }

  /**
    The collision, step by step: two creations give `Instance_0` and
    `Instance_1`; removing `Instance_0` leaves one entry, so the next
    creation is named `Instance_1` again, replaces the second handle and
    leaves the registry at one entry instead of two.
   */
  lemma IdReuseAfterRemoval<V>(h0: V, h1: V, h2: V)
    requires h1 != h2
    ensures var m0: map<string, V> := map[];
            var m1 := m0[NextId(m0) := h0];
            var m2 := m1[NextId(m1) := h1];
            var m3 := m2 - {"Instance_0"};
            var m4 := m3[NextId(m3) := h2];
            && NextId(m0) == "Instance_0"
            && NextId(m1) == "Instance_1"
            && m3 == map["Instance_1" := h1]
            && NextId(m3) == "Instance_1"
            && m4 == map["Instance_1" := h2]
            && |m4| == 1
            && h1 !in m4.Values
  {
    FirstIds();
  }

  /**
    The least index from `n` on whose identifier is not in `used`: the
    search ends because each identifier found in use is dropped from the set.
   */
  function FreshIndex(used: set<string>, n: nat): (k: nat)
    ensures n <= k && InstanceId(k) !in used
    ensures forall j :: n <= j < k ==> InstanceId(j) in used
    decreases |used|
  {
    if InstanceId(n) !in used then n
    else
      var k := FreshIndex(used - {InstanceId(n)}, n + 1);
      InstanceIdInjective(k, n);
      k
  }

  /**
    Corrected naming rule: an identifier that no live entry has and that was
    never handed out before (`announced`), which is the size-derived
    identifier whenever that one qualifies.
   */
  function FreshInstanceId<V>(m: map<string, V>, announced: set<string>): (id: string)
    ensures id !in m && id !in announced
    ensures NextId(m) !in m && NextId(m) !in announced ==> id == NextId(m)
    ensures |id| > |InstancePrefix| && id[..|InstancePrefix|] == InstancePrefix
  {
    InstanceId(FreshIndex(m.Keys + announced, |m|))
  }
}
