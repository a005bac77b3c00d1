/** Numbered parts of a message, stored by number as they arrive and joined when all are there. Two protocols split
    their replies this way. */
module Parts {
  import opened Bytes

  /** The parts numbered below `total`, joined; one that is missing counts as empty. */
  function Join(parts: map<byte, Data>, total: nat): Data
    requires total <= 256
  {
    if total == 0 then []
    else Join(parts, total - 1) + (if total - 1 in parts then parts[total - 1] else [])
  }

  /** The parts whose numbers are in `have`. */
  function Store(chunks: seq<Data>, have: set<byte>): map<byte, Data>
    requires forall i | i in have :: i < |chunks|
  {
    map i | i in have :: chunks[i]
  }

  ghost function Numbers(n: nat): (numbers: set<int>)
    ensures |numbers| == n
    ensures forall i :: i in numbers <==> 0 <= i < n
  {
    if n == 0 then {} else Numbers(n - 1) + {n - 1}
  }

  ghost function FirstNumbers(n: nat): (numbers: set<byte>)
    requires n <= 256
    ensures forall i: byte :: i in numbers <==> i < n
  {
    if n == 0 then {} else FirstNumbers(n - 1) + {n - 1}
  }

  lemma SubsetSize(a: set<int>, b: set<int>)
    requires a <= b
    ensures |a| <= |b|
    ensures |a| == |b| ==> a == b
  {
    assert b == a + (b - a);
    assert |b| == |a| + |b - a|;
  }

  lemma {:induction false} JoinStore(chunks: seq<Data>, have: set<byte>, total: nat)
    requires total <= |chunks| <= 256
    requires forall i | i in have :: i < |chunks|
    requires forall i: byte | i < total :: i in have
    ensures Join(Store(chunks, have), total) == Flatten(chunks[..total])
  {
    if total > 0 {
      JoinStore(chunks, have, total - 1);
      assert chunks[..total] == chunks[..total - 1] + [chunks[total - 1]];
      FlattenAppend(chunks[..total - 1], [chunks[total - 1]]);
      assert Flatten([chunks[total - 1]]) == chunks[total - 1] + Flatten([]);
    }
  }

  lemma StoreOne(chunks: seq<Data>, have: set<byte>, index: byte)
    requires index < |chunks| && forall i | i in have :: i < |chunks|
    ensures Store(chunks, have)[index := chunks[index]] == Store(chunks, have + {index})
    ensures |Store(chunks, have + {index})| == |have + {index}|
  {
    assert Store(chunks, have + {index}).Keys == have + {index};
  }

  /** A set of part numbers is no bigger than the number of parts, and as big only when it has them all. */
  lemma AllThere(have: set<byte>, total: nat)
    requires forall i | i in have :: i < total
    ensures |have| <= total
    ensures |have| == total ==> forall i: byte | i < total :: i in have
  {
    var numbers: set<int> := set i | i in have;
    assert numbers == have;
    SubsetSize(numbers, Numbers(total));
    if |have| == total {
      forall i: byte | i < total
        ensures i in have
      {
        assert i in Numbers(total);
      }
    }
  }

  lemma {:induction false} JoinAll(chunks: seq<Data>, have: set<byte>, total: nat)
    requires |chunks| <= total <= 256
    requires forall i: byte :: i in have <==> i < |chunks|
    ensures Join(Store(chunks, have), total) == Flatten(chunks)
  {
    if total == |chunks| {
      JoinStore(chunks, have, total);
      assert chunks[..total] == chunks;
    } else {
      JoinAll(chunks, have, total - 1);
    }
  }
}
