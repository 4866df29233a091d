/**
 * The per-user IP cache (`resolve_targets_to_ip_map`): a JSON object from hostname to the
 * list of addresses it resolved to, merged by set union.  The object is an association
 * list in insertion order, as a Python `dict` is; an assignment to a present key keeps
 * its place and a new key goes to the end.
 */
module IpCache {
  import opened Seqs

  datatype Entry = Entry(target: string, ips: seq<string>)

  type IpMap = seq<Entry>

  /** The keys of the object, in insertion order. */
  function Keys(m: IpMap): (r: seq<string>)
    ensures |r| == |m| && forall i :: 0 <= i < |m| ==> r[i] == m[i].target
  {
    seq(|m|, i requires 0 <= i < |m| => m[i].target)
  }

  predicate HasKey(m: IpMap, k: string) {
    k in Keys(m)
  }

  /** A JSON object names each key once. */
  predicate KeysUnique(m: IpMap) {
    NoDups(Keys(m))
  }

  /** The first position of `k` in `keys`, or -1. */
  function Find(keys: seq<string>, k: string): (i: int)
    ensures -1 <= i < |keys|
    ensures i >= 0 ==> keys[i] == k && k !in keys[..i]
    ensures i < 0 <==> k !in keys
  {
    if keys == [] then -1
    else if keys[0] == k then 0
    else
      var j := Find(keys[1..], k);
      assert keys == [keys[0]] + keys[1..];
      if j < 0 then -1
      else
        assert keys[..j + 1] == [keys[0]] + keys[1..][..j];
        j + 1
  }

  /** `m.get(k, [])`. */
  function Get(m: IpMap, k: string): (r: seq<string>)
    ensures !HasKey(m, k) ==> r == []
  {
    var i := Find(Keys(m), k);
    if i < 0 then [] else m[i].ips
  }

  /** `m[k] = v`: replaces the value in place, or adds the key at the end. */
  function Put(m: IpMap, k: string, v: seq<string>): (r: IpMap)
    ensures Keys(r) == if HasKey(m, k) then Keys(m) else Keys(m) + [k]
    ensures Get(r, k) == v
    ensures forall j :: j != k ==> Get(r, j) == Get(m, j)
    ensures KeysUnique(m) ==> KeysUnique(r)
  {
    var i := Find(Keys(m), k);
    if i < 0 then
      var r := m + [Entry(k, v)];
      assert Keys(r) == Keys(m) + [k];
      FindAppend(Keys(m), k);
      r
    else
      var r := m[i := Entry(k, v)];
      assert Keys(r) == Keys(m);
      r
  }

  /** Appending a new key leaves the positions of the others alone. */
  lemma FindAppend(keys: seq<string>, k: string)
    requires k !in keys
    ensures Find(keys + [k], k) == |keys|
    ensures forall j :: j != k ==> Find(keys + [k], j) == Find(keys, j)
  {
    var ks := keys + [k];
    assert ks[..|keys|] == keys;
    forall j | j != k ensures Find(ks, j) == Find(keys, j) {
      var a := Find(ks, j);
      var b := Find(keys, j);
      if b >= 0 {
        assert ks[..b] == keys[..b];
        assert ks[b] == j;
      }
      if a >= 0 {
        assert a < |keys|;
        assert ks[..a] == keys[..a];
        assert keys[a] == j;
      }
    }
  }

  /** `list(set(s))`: the distinct elements of `s`, once each. */
  function Dedup(s: seq<string>): (r: seq<string>)
    ensures NoDups(r)
    ensures forall x :: x in r <==> x in s
    ensures |r| <= |s|
  {
    if s == [] then []
    else
      var d := Dedup(s[..|s| - 1]);
      var x := s[|s| - 1];
      assert s == s[..|s| - 1] + [x];
      if x in d then d else d + [x]
  }

  /** One step of the loop: the target's stored addresses become old ∪ resolved. */
  function MergeStep(m: IpMap, t: string, resolve: string -> seq<string>): IpMap {
    Put(m, t, Dedup(Get(m, t) + resolve(t)))
  }

  /** The map after the loop has merged every target of `ts`, in order; a proper JSON object stays one. */
  function MergeAll(m: IpMap, ts: seq<string>, resolve: string -> seq<string>): (r: IpMap)
    ensures KeysUnique(m) ==> KeysUnique(r)
    decreases |ts|
  {
    if ts == [] then m else MergeStep(MergeAll(m, ts[..|ts| - 1], resolve), ts[|ts| - 1], resolve)
  }

  /**
   * `resolve_targets_to_ip_map(targets, existing)`.  A missing or empty `existing` is the
   * empty map `[]`; a resolver failure is a hostname with no addresses.
   */
  method ResolveTargetsToIpMap(targets: seq<string>, existing: IpMap, resolve: string -> seq<string>)
    returns (ipMap: IpMap)
    ensures ipMap == MergeAll(existing, targets, resolve)
  {
    ipMap := existing;
    for i := 0 to |targets|
      invariant ipMap == MergeAll(existing, targets[..i], resolve)
    {
      assert targets[..i + 1][..i] == targets[..i];
      var target := targets[i];
      var newIps := resolve(target);
      var oldIps := Get(ipMap, target);
      ipMap := Put(ipMap, target, Dedup(oldIps + newIps));
    }
    assert targets[..|targets|] == targets;
  }

  /** A key that is not a target keeps its value, and keys are only ever added. */
  lemma {:induction false} MergeAllUntouched(m: IpMap, ts: seq<string>, resolve: string -> seq<string>, k: string)
    requires k !in ts
    ensures Get(MergeAll(m, ts, resolve), k) == Get(m, k)
    ensures HasKey(MergeAll(m, ts, resolve), k) <==> HasKey(m, k)
    decreases |ts|
  {
    if ts != [] {
      var init := ts[..|ts| - 1];
      assert ts == init + [ts[|ts| - 1]];
      MergeAllUntouched(m, init, resolve, k);
      MergeStepOther(MergeAll(m, init, resolve), ts[|ts| - 1], resolve, k);
    }
  }

  /** One merge step stores old ∪ resolved under its target, once each. */
  lemma MergeStepTarget(m: IpMap, t: string, resolve: string -> seq<string>)
    ensures HasKey(MergeStep(m, t, resolve), t)
    ensures NoDups(Get(MergeStep(m, t, resolve), t))
    ensures forall x :: x in Get(MergeStep(m, t, resolve), t) <==> x in Get(m, t) || x in resolve(t)
  {
    var d := Dedup(Get(m, t) + resolve(t));
    assert Get(MergeStep(m, t, resolve), t) == d;
    assert forall x :: x in Get(m, t) + resolve(t) <==> x in Get(m, t) || x in resolve(t);
  }

  /** One merge step leaves every other key as it was. */
  lemma MergeStepOther(m: IpMap, t: string, resolve: string -> seq<string>, k: string)
    requires k != t
    ensures Get(MergeStep(m, t, resolve), k) == Get(m, k)
    ensures HasKey(MergeStep(m, t, resolve), k) <==> HasKey(m, k)
  {
    var r := Put(m, t, Dedup(Get(m, t) + resolve(t)));
    assert Get(r, k) == Get(m, k);
    if !HasKey(m, t) {
      assert Keys(r) == Keys(m) + [t];
    }
  }

  /** Every target ends up present, holding exactly the old addresses and the resolved ones, once each. */
  lemma {:induction false} MergeAllTarget(m: IpMap, ts: seq<string>, resolve: string -> seq<string>, t: string)
    requires t in ts
    ensures HasKey(MergeAll(m, ts, resolve), t)
    ensures NoDups(Get(MergeAll(m, ts, resolve), t))
    ensures forall x :: x in Get(MergeAll(m, ts, resolve), t) <==> x in Get(m, t) || x in resolve(t)
    decreases |ts|
  {
    var init := ts[..|ts| - 1];
    var last := ts[|ts| - 1];
    var before := MergeAll(m, init, resolve);
    assert MergeAll(m, ts, resolve) == MergeStep(before, last, resolve);
    if last != t {
      InInit(ts, t);
      MergeAllTarget(m, init, resolve, t);
      MergeStepOther(before, last, resolve, t);
    } else {
      MergeStepTarget(before, t, resolve);
      if t in init {
        MergeAllTarget(m, init, resolve, t);
      } else {
        MergeAllUntouched(m, init, resolve, t);
      }
    }
  }

  /** The merge is monotone: no address is ever dropped from any key. */
  lemma MergeAllMonotone(m: IpMap, ts: seq<string>, resolve: string -> seq<string>, k: string, x: string)
    requires x in Get(m, k)
    ensures HasKey(MergeAll(m, ts, resolve), k)
    ensures x in Get(MergeAll(m, ts, resolve), k)
  {
    if k in ts {
      MergeAllTarget(m, ts, resolve, k);
    } else {
      MergeAllUntouched(m, ts, resolve, k);
    }
  }

  /**
   * A fresh cache (`resolve_targets_to_ip_map(targets)`) depends only on the targets and the
   * resolver: its keys are the targets and each holds the target's addresses.
   */
  lemma CreateFromTargets(ts: seq<string>, resolve: string -> seq<string>, k: string)
    ensures HasKey(MergeAll([], ts, resolve), k) <==> k in ts
    ensures k in ts ==> forall x :: x in Get(MergeAll([], ts, resolve), k) <==> x in resolve(k)
  {
    if k in ts {
      MergeAllTarget([], ts, resolve, k);
    } else {
      MergeAllUntouched([], ts, resolve, k);
    }
  }

  /** With the same answers from DNS, updating a second time adds no address. */
  lemma MergeAgainSameContents(m: IpMap, ts: seq<string>, resolve: string -> seq<string>, k: string)
    ensures var once := MergeAll(m, ts, resolve);
      forall x :: x in Get(MergeAll(once, ts, resolve), k) <==> x in Get(once, k)
  {
    var once := MergeAll(m, ts, resolve);
    if k in ts {
      MergeAllTarget(m, ts, resolve, k);
      MergeAllTarget(once, ts, resolve, k);
    } else {
      MergeAllUntouched(once, ts, resolve, k);
    }
  }
}
