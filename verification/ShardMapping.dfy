/** Shards of a key under two shard counts, where one count divides the other. */
module ShardMapping {
  import opened Arithmetic
  import opened Wrappers

  newtype Int32 = x: int | -0x8000_0000 <= x < 0x8000_0000
  newtype Uint32 = x: int | 0 <= x < 0x1_0000_0000

  /** The shard of a key with this hash; shards are numbered from one. */
  function ShardOf(hash: Uint32, count: Int32): (s: Int32)
    requires count > 0
    ensures 1 <= s <= count
  {
    (hash % count as Uint32) as Int32 + 1
  }

  predicate Compatible(a: Int32, b: Int32)
    requires a > 0 && b > 0
  {
    a % b == 0 || b % a == 0
  }

  predicate ValidShard(s: Int32, count: Int32) {
    1 <= s <= count
  }

  /** Some key lives on shard `s` of `source` shards and on shard `t` of `target` shards. */
  ghost predicate SharesKey(source: Int32, target: Int32, s: Int32, t: Int32)
    requires source > 0 && target > 0
  {
    exists hash: Uint32 :: ShardOf(hash, source) == s && ShardOf(hash, target) == t
  }

  /** A key's shards agree modulo the smaller count. */
  lemma ShardsAgree(hash: Uint32, small: Int32, large: Int32)
    requires 0 < small <= large && large % small == 0
    ensures (ShardOf(hash, large) - 1) % small == ShardOf(hash, small) - 1
  {
    var k := Multiple(large as int, small as int);
    ModOfMod(hash as int, small as int, k);
  }

  /** And two shards that agree share a key. */
  lemma AgreeingShardsShareKey(small: Int32, large: Int32, s: Int32, t: Int32)
    requires 0 < small <= large && ValidShard(s, small) && ValidShard(t, large) && (t - 1) % small == s - 1
    ensures ShardOf((t - 1) as Uint32, small) == s && ShardOf((t - 1) as Uint32, large) == t
  {
    ModUnique((t - 1) as int, large as int, 0, (t - 1) as int);
  }

  lemma SharesKeyIff(small: Int32, large: Int32, s: Int32, t: Int32)
    requires 0 < small <= large && large % small == 0 && ValidShard(t, large)
    ensures SharesKey(small, large, s, t) <==> s == (t - 1) % small + 1
    ensures SharesKey(large, small, t, s) <==> s == (t - 1) % small + 1
  {
    forall hash: Uint32 | ShardOf(hash, large) == t ensures ShardOf(hash, small) == (t - 1) % small + 1 {
      ShardsAgree(hash, small, large);
    }
    if s == (t - 1) % small + 1 {
      AgreeingShardsShareKey(small, large, s, t);
    }
  }

  // ------------------------------------------------------- the mapping

  /** Arithmetic on 32 bits wraps around. */
  function Wrap(x: int): (r: Int32)
    ensures -0x8000_0000 <= x < 0x8000_0000 ==> r as int == x
  {
    ((x + 0x8000_0000) % 0x1_0000_0000 - 0x8000_0000) as Int32
  }

  /** The remainder of a truncating division. */
  function Rem(a: Int32, n: Int32): (r: Int32)
    requires n > 0
    ensures -n < r < n && (a >= 0 ==> r == a % n)
  {
    if a >= 0 then a % n else -((-(a as int)) % n as int) as Int32
  }

  /** The target shards that share a key with a shard, in order. */
  ghost predicate IsMapping(source: Int32, target: Int32, shard: Int32, ids: seq<Int32>)
    requires source > 0 && target > 0
  {
    && (forall t :: t in ids <==> ValidShard(t, target) && SharesKey(source, target, shard, t))
    && (forall i, j :: 0 <= i < j < |ids| ==> ids[i] < ids[j])
  }

  /**
    None stands for the panic on counts that cannot be mapped. Any number is taken for a shard; what
    the result means is stated for shards that exist.
   */
  method MapShardID(source: Int32, target: Int32, shard: Int32) returns (r: Option<seq<Int32>>)
    requires source > 0 && target > 0
    ensures r.None? <==> !Compatible(source, target)
    ensures r.Some? ==> |r.value| == if source < target then (target / source) as int else 1
    ensures r.Some? && ValidShard(shard, source) ==> IsMapping(source, target, shard, r.value)
  {
    hide Wrap, Rem;
    if source % target != 0 && target % source != 0 {
      return None;
    }
    var s := Wrap(shard as int - 1);
    if source < target {
      assert source % target == source by { ModUnique(source as int, target as int, 0, source as int); }
      var ratio := target / source;
      ghost var k := Multiple(target as int, source as int);
      var ids: seq<Int32> := [];
      var i: Int32 := 0;
      while i < ratio
        invariant 0 <= i <= ratio && |ids| == i as int
        invariant ValidShard(shard, source) ==>
          forall j :: 0 <= j < |ids| ==> ids[j] as int == s as int + j * source as int + 1
      {
        if ValidShard(shard, source) {
          InRange(source as int, k, s as int, i as int);
        }
        ids := ids + [Wrap(Wrap(s as int + Wrap(i as int * source as int) as int) as int + 1)];
        i := i + 1;
      }
      if ValidShard(shard, source) {
        OneToMany(source, target, shard, ids, k);
      }
      r := Some(ids);
    } else if source > target {
      assert target % source == target by { ModUnique(target as int, source as int, 0, target as int); }
      r := Some([Rem(s, target) + 1]);
      if ValidShard(shard, source) {
        forall t | ValidShard(t, target) ensures SharesKey(source, target, shard, t) <==> t == s % target + 1 {
          SharesKeyIff(target, source, t, shard);
        }
      }
    } else {
      r := Some([Wrap(s as int + 1)]);
      if ValidShard(shard, source) {
        ModUnique(s as int, source as int, 0, s as int);
        forall t | ValidShard(t, target) ensures SharesKey(source, target, shard, t) <==> t == shard {
          SharesKeyIff(source, target, shard, t);
          ModUnique((t - 1) as int, source as int, 0, (t - 1) as int);
        }
      }
    }
  }

  lemma InRange(source: int, k: int, s: int, i: int)
    requires 0 <= s < source && 0 <= i < k
    ensures 0 <= i * source <= s + i * source < source * k
  {
    assert (i + 1) * source <= k * source;
    assert i * source >= 0;
  }

  lemma OneToMany(source: Int32, target: Int32, shard: Int32, ids: seq<Int32>, k: int)
    requires 0 < source < target && ValidShard(shard, source) && k > 0 && target as int == source as int * k
    requires target % source == 0
    requires |ids| == k && forall j :: 0 <= j < |ids| ==> ids[j] as int == shard as int - 1 + j * source as int + 1
    ensures forall t :: t in ids <==> ValidShard(t, target) && SharesKey(source, target, shard, t)
    ensures forall i, j :: 0 <= i < j < |ids| ==> ids[i] < ids[j]
  {
    hide SharesKey;
    var n, s := source as int, shard as int - 1;
    forall i, j | 0 <= i < j < |ids| ensures ids[i] < ids[j] {
      AtLeast(i, j, n);
    }
    forall t | t in ids ensures ValidShard(t, target) && SharesKey(source, target, shard, t) {
      var j :| 0 <= j < |ids| && ids[j] == t;
      InRange(n, k, s, j);
      ModUnique(t as int - 1, n, j, s);
      SharesKeyIff(source, target, shard, t);
    }
    forall t | ValidShard(t, target) && SharesKey(source, target, shard, t) ensures t in ids {
      SharesKeyIff(source, target, shard, t);
      var j := Index(t as int - 1, n, k);
      assert ids[j] == t;
    }
  }

  lemma Index(x: int, n: int, k: int) returns (j: int)
    requires n > 0 && 0 <= x < n * k
    ensures 0 <= j < k && x == j * n + x % n
  {
    j := x / n;
    Division(x, n);
    AtLeast(k, j, n);
    AtLeast(j, 0, n);
  }

  /** A shard is mapped to exactly the shards that are mapped to it; to more shards and back it is alone. */
  lemma MappingIsSymmetric(source: Int32, target: Int32, s: Int32, t: Int32, ids: seq<Int32>, back: seq<Int32>)
    requires source > 0 && target > 0 && Compatible(source, target) && ValidShard(s, source) && ValidShard(t, target)
    requires IsMapping(source, target, s, ids) && IsMapping(target, source, t, back)
    ensures t in ids <==> s in back
    ensures source <= target && t in ids ==> back == [s]
  {
    hide SharesKey, Compatible;
    SharingIsSymmetric(source, target, s, t);
    if source <= target && t in ids {
      SmallerDivides(source, target);
      forall x | x in back ensures x == s {
        OnlyOneShard(source, target, x, s, t);
      }
      if |back| > 1 {
        TwoDiffer(back, s);
      }
    }
  }

  lemma OnlyOneShard(small: Int32, large: Int32, x: Int32, s: Int32, t: Int32)
    requires 0 < small <= large && large % small == 0 && ValidShard(t, large)
    requires SharesKey(large, small, t, x) && SharesKey(small, large, s, t)
    ensures x == s
  {
    hide SharesKey;
    SharesKeyIff(small, large, x, t);
    SharesKeyIff(small, large, s, t);
  }

  lemma TwoDiffer(ids: seq<Int32>, s: Int32)
    requires |ids| > 1 && forall i, j :: 0 <= i < j < |ids| ==> ids[i] < ids[j]
    ensures exists x :: x in ids && x != s
  {
    assert ids[0] in ids && ids[1] in ids && ids[0] < ids[1];
  }

  lemma SharingIsSymmetric(source: Int32, target: Int32, s: Int32, t: Int32)
    requires source > 0 && target > 0
    ensures SharesKey(source, target, s, t) <==> SharesKey(target, source, t, s)
  {
  }

  /** Mapping to no fewer shards splits the target range: each target shard has one source shard. */
  lemma MappingPartitions(source: Int32, target: Int32, t: Int32)
    requires 0 < source <= target && Compatible(source, target) && ValidShard(t, target)
    ensures exists s :: ValidShard(s, source) && OnlySource(source, target, s, t)
  {
    hide SharesKey;
    SmallerDivides(source, target);
    var s := (t - 1) % source + 1;
    forall s' ensures SharesKey(source, target, s', t) <==> s' == s {
      SharesKeyIff(source, target, s', t);
    }
    assert OnlySource(source, target, s, t);
  }

  ghost predicate OnlySource(source: Int32, target: Int32, s: Int32, t: Int32)
    requires source > 0 && target > 0
  {
    forall s' :: SharesKey(source, target, s', t) <==> s' == s
  }

  lemma SmallerDivides(small: Int32, large: Int32)
    requires 0 < small <= large && Compatible(small, large)
    ensures large % small == 0
  {
    if small < large {
      ModUnique(small as int, large as int, 0, small as int);
    } else {
      ModUnique(large as int, large as int, 1, 0);
    }
  }

  // ---------------------------------------------------------- checking

  /** Whether the check passes; None stands for its panic. */
  function VerifyShardIDMapping(thisCount: Int32, thatCount: Int32, this': Int32, that: Int32): Option<bool>
    requires thisCount > 0 && thatCount > 0
  {
    if thisCount % thatCount != 0 && thatCount % thisCount != 0 then None
    else
      var least := if thisCount > thatCount then thatCount else thisCount;
      Some(Rem(this', least) == Rem(that, least))
  }

  lemma SameRemainder(a: int, b: int, n: int)
    requires n > 0
    ensures a % n == b % n <==> (a - 1) % n == (b - 1) % n
  {
    var qa, qb := a / n, b / n;
    if a % n == b % n {
      ShiftMod(b - 1, qa - qb, n);
      assert a - 1 == b - 1 + (qa - qb) * n;
    }
    if (a - 1) % n == (b - 1) % n {
      var k := (a - 1) / n - (b - 1) / n;
      ShiftMod(b, k, n);
      assert a == b + k * n;
    }
  }

  /** For real shards the check accepts exactly the pairs that can hold one key. */
  lemma VerifyAcceptsSharedKeys(thisCount: Int32, thatCount: Int32, this': Int32, that: Int32)
    requires thisCount > 0 && thatCount > 0 && Compatible(thisCount, thatCount)
    requires ValidShard(this', thisCount) && ValidShard(that, thatCount)
    ensures VerifyShardIDMapping(thisCount, thatCount, this', that)
      == Some(SharesKey(thisCount, thatCount, this', that))
  {
    if thisCount <= thatCount {
      VerifySmaller(thisCount, thatCount, this', that);
    } else {
      VerifySmaller(thatCount, thisCount, that, this');
      SharingIsSymmetric(thisCount, thatCount, this', that);
    }
  }

  lemma VerifySmaller(small: Int32, large: Int32, s: Int32, t: Int32)
    requires 0 < small <= large && Compatible(small, large) && ValidShard(s, small) && ValidShard(t, large)
    ensures SharesKey(small, large, s, t) <==> s % small == t % small
  {
    SmallerDivides(small, large);
    SharesKeyIff(small, large, s, t);
    SameRemainder(s as int, t as int, small as int);
    ModUnique(s as int - 1, small as int, 0, s as int - 1);
  }
}
