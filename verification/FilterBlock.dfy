/** The filter block of a table (table/filter_block.cc): one filter for every 2048 bytes of data blocks. */
module FilterBlocks {
  import opened Coding
  import opened Sequences
  import opened Bloom

  const FILTER_BASE_LG: Byte := 11
  const FILTER_BASE: nat := 2048

  type Key = seq<Byte>

  /** Filter i of the data ends where the next one starts. */
  function FilterEnd(offsets: seq<nat>, length: nat, i: nat): nat {
    if i + 1 < |offsets| then offsets[i + 1] else length
  }

  /** Filter i holds at least these keys. */
  ghost predicate HoldsKeys(policy: BloomFilterPolicy, data: seq<Byte>, start: nat, end: nat, keys: set<Key>) {
    start <= end <= |data| && forall k :: k in keys ==> policy.MayMatch(k, data[start..end])
  }

  /** groups[i] are the keys that were added for the i-th range of data blocks. */
  ghost predicate Filters(policy: BloomFilterPolicy, data: seq<Byte>, offsets: seq<nat>, groups: seq<set<Key>>) {
    |groups| == |offsets| &&
    forall i :: 0 <= i < |offsets| ==> HoldsKeys(policy, data, offsets[i], FilterEnd(offsets, |data|, i), groups[i])
  }

  /** The finished block: filters, their offsets, the offset of the offsets, the base. */
  function Contents(data: seq<Byte>, offsets: seq<nat>): seq<Byte> {
    data + (FixedArray(offsets) + (Fixed(|data|, FIXED32_BYTES) + [FILTER_BASE_LG]))
  }

  /** The filters, their offsets in four bytes each, the offset of the first of these, and 11: a filter is
      for 2^11 bytes of data blocks. */
  lemma ContentsBytes(data: seq<Byte>, offsets: seq<nat>, i: nat)
    requires |data| < 0x1_0000_0000 && i < |offsets| && offsets[i] < 0x1_0000_0000
    ensures var c, n := Contents(data, offsets), |data|;
            && |c| == n + 4 * |offsets| + 5 && c[..n] == data
            && U32At(c, n + 4 * i) == offsets[i] && U32At(c, n + 4 * |offsets|) == n && c[|c| - 1] == 11
  {
    hide Fixed, FromFixed, FixedArray, U32At;
    var c, n, words := Contents(data, offsets), |data|, FixedArray(offsets);
    assert c[n..n + |words|] == words;
    FixedArrayAt(c, n, offsets, i);
    FixedAt(c, n + 4 * i, offsets[i]);
    assert c[n + |words|..n + |words| + 4] == Fixed(n, FIXED32_BYTES);
    FixedAt(c, n + |words|, n);
    FromFixedAt(c, n + 4 * i);
    FromFixedAt(c, n + |words|);
  }

  class FilterBlockBuilder {
    const policy: BloomFilterPolicy
    var keys: seq<Byte>
    var start: seq<nat>
    var result: seq<Byte>
    var filterOffsets: seq<nat>
    ghost var groups: seq<set<Key>>
    ghost var pending: seq<Key>               // the keys of the current range
    ghost var added: set<(nat, Key)>          // all keys, with the offset of their data block

    ghost predicate Valid()
      reads this
    {
      && 1 <= policy.k <= 30
      && Filters(policy, result, filterOffsets, groups)
      && Flattened(keys, start, pending)
      && forall o, k :: (o, k) in added ==> InGroup(o, k)
    }

    ghost predicate InGroup(offset: nat, key: Key)
      reads this
    {
      var i := offset / FILTER_BASE;
      if i < |groups| then key in groups[i] else i == |groups| && key in pending
    }

    constructor (policy: BloomFilterPolicy)
      requires 1 <= policy.k <= 30
      ensures Valid() && added == {} && |groups| == 0 && this.policy == policy
    {
      this.policy := policy;
      keys, start, result, filterOffsets := [], [], [], [];
      groups, pending, added := [], [], {};
    }

    /** From here on, keys belong to a data block at this offset, at or past the ones before. */
    method StartBlock(blockOffset: nat)
      requires Valid() && blockOffset / FILTER_BASE >= |groups|
      modifies this
      ensures Valid() && added == old(added) && |groups| == blockOffset / FILTER_BASE
    {
      var filterIndex := blockOffset / FILTER_BASE;
      while filterIndex > |filterOffsets|
        invariant Valid() && added == old(added) && |groups| <= filterIndex
      {
        GenerateFilter();
      }
    }

    method AddKey(key: Key, ghost blockOffset: nat)
      requires Valid() && blockOffset / FILTER_BASE == |groups|
      modifies this
      ensures Valid() && added == old(added) + {(blockOffset, key)} && groups == old(groups)
    {
      FlattenedAdd(keys, start, pending, key);
      start := start + [|keys|];
      keys := keys + key;
      pending := pending + [key];
      added := added + {(blockOffset, key)};
    }

    method GenerateFilter()
      requires Valid()
      modifies this
      ensures Valid() && added == old(added) && |groups| == old(|groups|) + 1 && pending == []
      // An empty filter for no keys, otherwise the one that the policy makes for the keys so far.
      ensures filterOffsets == old(filterOffsets) + [|old(result)|]
      ensures old(pending) == [] ==> result == old(result)
      ensures old(pending) != [] ==> old(result) <= result && policy.IsFilterOf(result[|old(result)|..], old(pending))
    {
      var numKeys := |start|;
      ghost var before, offsets := result, filterOffsets;
      ghost var group := set k | k in pending;
      if numKeys == 0 {
        filterOffsets := filterOffsets + [|result|];
      } else {
        var tmpKeys := UnflattenKeys();
        filterOffsets := filterOffsets + [|result|];
        result := policy.CreateFilter(tmpKeys, result);
        keys := [];
        start := [];
      }
      AddFilter(policy, before, offsets, groups, result, group);
      groups := groups + [group];
      pending := [];
    }

    /** The list of keys, from the flat string that collected them. */
    method UnflattenKeys() returns (tmpKeys: seq<Key>)
      requires Flattened(keys, start, pending)
      ensures tmpKeys == pending
    {
      var ends := start + [|keys|];
      tmpKeys := [];
      for i := 0 to |start|
        invariant tmpKeys == pending[..i]
      {
        assert FilterEnd(start, |keys|, i) == ends[i + 1];
        tmpKeys := tmpKeys + [keys[ends[i]..ends[i + 1]]];
      }
      assert pending[..|start|] == pending;
    }

    /** Every key added is in the group of its block's offset. */
    method Finish() returns (contents: seq<Byte>)
      requires Valid()
      modifies this
      ensures added == old(added) && contents == Contents(result, filterOffsets)
      ensures Filters(policy, result, filterOffsets, groups)
      ensures forall o, k :: (o, k) in added && o / FILTER_BASE < |groups| ==> k in groups[o / FILTER_BASE]
    {
      if start != [] {
        GenerateFilter();
      }
      contents := AppendOffsets();
      assert forall o, k :: (o, k) in added ==> InGroup(o, k);
    }

    method AppendOffsets() returns (contents: seq<Byte>)
      ensures contents == Contents(result, filterOffsets)
    {
      hide Fixed;
      var arrayOffset := |result|;
      contents := result;
      for i := 0 to |filterOffsets|
        invariant contents == result + FixedArray(filterOffsets[..i])
      {
        assert filterOffsets[..i + 1][..i] == filterOffsets[..i];
        contents := contents + Fixed(filterOffsets[i], FIXED32_BYTES);
      }
      assert filterOffsets[..|filterOffsets|] == filterOffsets;
      contents := contents + Fixed(arrayOffset, FIXED32_BYTES);
      contents := contents + [FILTER_BASE_LG];
    }
  }

  /** The keys are the stretches of the flat string between the starts. */
  ghost predicate Flattened(flat: seq<Byte>, start: seq<nat>, pending: seq<Key>) {
    && |start| == |pending|
    && forall i :: 0 <= i < |start| ==>
         start[i] <= FilterEnd(start, |flat|, i) <= |flat| && flat[start[i]..FilterEnd(start, |flat|, i)] == pending[i]
  }

  lemma FlattenedAdd(flat: seq<Byte>, start: seq<nat>, pending: seq<Key>, key: Key)
    requires Flattened(flat, start, pending)
    ensures Flattened(flat + key, start + [|flat|], pending + [key])
  {
    var flat', start' := flat + key, start + [|flat|];
    forall i | 0 <= i < |start'|
      ensures start'[i] <= FilterEnd(start', |flat'|, i) <= |flat'|
      ensures flat'[start'[i]..FilterEnd(start', |flat'|, i)] == (pending + [key])[i]
    {
      if i < |start| {
        assert FilterEnd(start', |flat'|, i) == FilterEnd(start, |flat|, i);
        assert flat'[start[i]..FilterEnd(start, |flat|, i)] == flat[start[i]..FilterEnd(start, |flat|, i)];
      }
    }
  }

  lemma AddFilter(policy: BloomFilterPolicy, data: seq<Byte>, offsets: seq<nat>, groups: seq<set<Key>>,
                  data': seq<Byte>, group: set<Key>)
    requires Filters(policy, data, offsets, groups) && data <= data'
    requires forall k :: k in group ==> policy.MayMatch(k, data'[|data|..])
    ensures Filters(policy, data', offsets + [|data|], groups + [group])
  {
    var offsets', groups' := offsets + [|data|], groups + [group];
    forall i | 0 <= i < |offsets'|
      ensures HoldsKeys(policy, data', offsets'[i], FilterEnd(offsets', |data'|, i), groups'[i])
    {
      if i < |offsets| {
        var end := FilterEnd(offsets, |data|, i);
        assert HoldsKeys(policy, data, offsets[i], end, groups[i]);
        assert FilterEnd(offsets', |data'|, i) == end && data'[offsets[i]..end] == data[offsets[i]..end];
      } else {
        assert data'[|data|..] == data'[|data|..|data'|];
      }
    }
  }

  class FilterBlockReader {
    const policy: BloomFilterPolicy
    const contents: seq<Byte>
    var offset: nat   // where the offset array begins
    var num: nat
    var baseLg: nat

    ghost predicate Describes(data: seq<Byte>, offsets: seq<nat>)
      reads this
    {
      contents == Contents(data, offsets) && offset == |data| && num == |offsets| && baseLg == FILTER_BASE_LG
    }

    constructor (policy: BloomFilterPolicy, contents: seq<Byte>)
      ensures this.policy == policy && this.contents == contents
      ensures forall data, offsets :: contents == Contents(data, offsets) && |contents| < 0x1_0000_0000 ==>
                Describes(data, offsets)
    {
      this.policy := policy;
      this.contents := contents;
      offset, num, baseLg := 0, 0, 0;
      var n := |contents|;
      if n >= 5 {
        baseLg := contents[n - 1];
        var lastWord := FromFixed32(contents[n - 5..n - 1]);
        if lastWord <= n - 5 {
          offset := lastWord;
          num := (n - 5 - lastWord) / 4;
        }
      }
      new;
      forall data, offsets | contents == Contents(data, offsets) && |contents| < 0x1_0000_0000
        ensures Describes(data, offsets)
      {
        LastWord(data, offsets);
      }
    }

    /** A key that was added for a data block at this offset always may match. */
    method KeyMayMatch(blockOffset: nat, key: Key, ghost data: seq<Byte>, ghost offsets: seq<nat>, ghost groups: seq<set<Key>>)
      returns (r: bool)
      requires Describes(data, offsets) && |contents| < 0x1_0000_0000
      requires Filters(policy, data, offsets, groups)
      ensures blockOffset / FILTER_BASE >= |groups| ==> r
      ensures blockOffset / FILTER_BASE < |groups| ==>
                var i := blockOffset / FILTER_BASE;
                r == policy.MayMatch(key, data[offsets[i]..FilterEnd(offsets, |data|, i)]) && (key in groups[i] ==> r)
    {
      hide FromFixed32;
      var index := ShiftRight(blockOffset, baseLg);
      ShiftIsDivision(blockOffset);
      if index < num {
        assert HoldsKeys(policy, data, offsets[index], FilterEnd(offsets, |data|, index), groups[index]);
        OffsetWords(policy, data, offsets, groups, index);
        var start := FromFixed32(contents[offset + index * 4..offset + index * 4 + 4]);
        var limit := FromFixed32(contents[offset + index * 4 + 4..offset + index * 4 + 8]);
        if start <= limit && limit <= offset {
          assert contents[start..limit] == data[start..limit];
          r := policy.KeyMayMatch(key, contents[start..limit]);
        } else if start == limit {
          r := false;
        } else {
          r := true;
        }
      } else {
        r := true;
      }
    }
  }

  function ShiftRight(x: nat, n: nat): nat
    decreases n
  {
    if n == 0 then x else ShiftRight(x / 2, n - 1)
  }

  lemma ShiftIsDivision(x: nat)
    ensures ShiftRight(x, FILTER_BASE_LG) == x / FILTER_BASE
  {
    var y, z := x / 2 / 2 / 2 / 2, x / 2 / 2 / 2 / 2 / 2 / 2 / 2 / 2;
    assert ShiftRight(x, 11) == ShiftRight(x / 2, 10) == ShiftRight(x / 2 / 2, 9) == ShiftRight(x / 2 / 2 / 2, 8);
    assert ShiftRight(y, 7) == ShiftRight(y / 2, 6) == ShiftRight(y / 2 / 2, 5) == ShiftRight(y / 2 / 2 / 2, 4);
    assert ShiftRight(z, 3) == ShiftRight(z / 2, 2) == ShiftRight(z / 2 / 2, 1) == z / 2 / 2 / 2;
  }

  /** The last five bytes say where the offsets are. */
  lemma LastWord(data: seq<Byte>, offsets: seq<nat>)
    requires |Contents(data, offsets)| < 0x1_0000_0000
    ensures var c := Contents(data, offsets);
            |c| == |data| + 4 * |offsets| + 5 && c[|c| - 1] == FILTER_BASE_LG
            && FromFixed32(c[|c| - 5..|c| - 1]) == |data|
  {
    hide FromFixed32, Fixed;
    var c := Contents(data, offsets);
    assert c[|c| - 5..|c| - 1] == Fixed(|data|, FIXED32_BYTES);
    FixedAt(c, |c| - 5, |data|);
  }

  /** The two words that a lookup reads are the bounds of the filter. */
  lemma OffsetWords(policy: BloomFilterPolicy, data: seq<Byte>, offsets: seq<nat>, groups: seq<set<Key>>, i: nat)
    requires |Contents(data, offsets)| < 0x1_0000_0000 && i < |offsets| && Filters(policy, data, offsets, groups)
    ensures var c, p := Contents(data, offsets), |data| + i * 4;
            p + 8 <= |c| && FromFixed32(c[p..p + 4]) == offsets[i]
            && FromFixed32(c[p + 4..p + 8]) == FilterEnd(offsets, |data|, i)
  {
    hide FromFixed32, Fixed, FixedArray;
    var c, p, words := Contents(data, offsets), |data| + i * 4, FixedArray(offsets);
    assert HoldsKeys(policy, data, offsets[i], FilterEnd(offsets, |data|, i), groups[i]);
    assert At(c, |data|, words + (Fixed(|data|, FIXED32_BYTES) + [FILTER_BASE_LG])) by {
      assert c[|data|..|c|] == words + (Fixed(|data|, FIXED32_BYTES) + [FILTER_BASE_LG]);
    }
    SplitAt(c, |data|, words, Fixed(|data|, FIXED32_BYTES) + [FILTER_BASE_LG]);
    SplitAt(c, |data| + |words|, Fixed(|data|, FIXED32_BYTES), [FILTER_BASE_LG]);
    FixedArrayAt(c, |data|, offsets, i);
    FixedAt(c, p, offsets[i]);
    if i + 1 < |offsets| {
      assert HoldsKeys(policy, data, offsets[i + 1], FilterEnd(offsets, |data|, i + 1), groups[i + 1]);
      FixedArrayAt(c, |data|, offsets, i + 1);
      FixedAt(c, p + 4, offsets[i + 1]);
    } else {
      FixedAt(c, p + 4, |data|);
    }
  }
}
