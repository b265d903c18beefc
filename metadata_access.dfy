/**
 * The second half of the note metadata constructor: the `addresses` and
 * `viewingKeys` payloads cut into parallel lists of fixed-width entries,
 * and the `addAccess` operation that appends new grants to those lists in
 * place, skipping addresses that already have one.
 */
module MetadataAccess {
  import opened MetadataFields

  // ---------------------------------------------------------------------
  // Chunking
  // ---------------------------------------------------------------------

  /** The number of entries: the loop `i < length / width` runs for every i
      with `i * width < length`, that is, up to the ceiling. */
  function CeilDiv(n: nat, w: nat): nat
    requires w > 0
  {
    (n + w - 1) / w
  }

  /** i is below the entry count exactly when the i-th chunk starts inside
      the string. */
  lemma CeilDivBound(n: nat, w: nat, i: nat)
    requires w > 0
    ensures i * w < n <==> i < CeilDiv(n, w)
  {
    var c := CeilDiv(n, w);
    var r := (n + w - 1) % w;
    assert n + w - 1 == c * w + r;
    if i < c {
      MulMonotone(i + 1, c, w);
      NextChunkStart(w, i);
    } else {
      MulMonotone(c, i, w);
    }
  }

  lemma MulMonotone(a: nat, b: nat, w: nat)
    requires a <= b
    ensures a * w <= b * w
  {
  }

  /** The i-th entry of width w, clipped at the end of the string. */
  function Chunk(s: string, w: nat, i: nat): (r: string)
    ensures |r| <= w
    ensures w * i + w <= |s| ==> |r| == w
  {
    Substr(s, w * i, w)
  }

  /** The first n chunks, joined back together. */
  function JoinChunks(s: string, w: nat, n: nat): string
  {
    if n == 0 then [] else JoinChunks(s, w, n - 1) + Chunk(s, w, n - 1)
  }

  /** The text before a slice, followed by the slice, is the text up to the
      slice's end. */
  lemma PrefixThenSubstr(s: string, start: nat, len: nat)
    ensures s[..Min(start, |s|)] + Substr(s, start, len) == s[..Min(start + len, |s|)]
  {
    var a, b := Min(start, |s|), Min(start + len, |s|);
    assert s[..a] + s[a..b] == s[..b];
  }

  /** Chunk i + 1 starts where chunk i ends. */
  lemma NextChunkStart(w: nat, i: nat)
    ensures w * i + w == w * (i + 1)
  {
  }

  /** Joining the first n chunks gives the first n * w characters. */
  lemma {:induction false} JoinChunksIsPrefix(s: string, w: nat, n: nat)
    ensures JoinChunks(s, w, n) == s[..Min(w * n, |s|)]
  {
    if n > 0 {
      JoinChunksIsPrefix(s, w, n - 1);
      NextChunkStart(w, n - 1);
      PrefixThenSubstr(s, w * (n - 1), w);
    }
  }

  /** Chunking loses nothing: the address chunks of a string, stripped of
      their `0x`, join back to the string. The same holds of the viewing
      keys whenever that payload is exactly as long as the count of
      addresses asks for. */
  lemma ChunksReassemble(s: string, w: nat, n: nat)
    requires w > 0
    requires n == CeilDiv(|s|, w) || w * n == |s|
    ensures JoinChunks(s, w, n) == s
  {
    JoinChunksIsPrefix(s, w, n);
    if n == CeilDiv(|s|, w) {
      CeilDivBound(|s|, w, n);
      assert w * n >= |s|;
    }
  }

  /** The `for` loop of the constructor: one address and one viewing key per
      address chunk, each given back its `0x`. */
  method SplitAccounts(addressStr: string, viewingKeysStr: string, addressLength: nat, viewingKeyLength: nat)
    returns (addresses: seq<string>, viewingKeys: seq<string>)
    requires addressLength > 0
    ensures |addresses| == |viewingKeys| == CeilDiv(|addressStr|, addressLength)
    ensures forall i :: 0 <= i < |addresses| ==>
      addresses[i] == "0x" + Chunk(addressStr, addressLength, i) &&
      viewingKeys[i] == "0x" + Chunk(viewingKeysStr, viewingKeyLength, i)
  {
    addresses, viewingKeys := [], [];
    var i: nat := 0;
    CeilDivBound(|addressStr|, addressLength, 0);
    while i * addressLength < |addressStr|
      invariant i <= CeilDiv(|addressStr|, addressLength)
      invariant |addresses| == i && |viewingKeys| == i
      invariant forall k :: 0 <= k < i ==>
        addresses[k] == "0x" + Chunk(addressStr, addressLength, k) &&
        viewingKeys[k] == "0x" + Chunk(viewingKeysStr, viewingKeyLength, k)
      decreases CeilDiv(|addressStr|, addressLength) - i
    {
      CeilDivBound(|addressStr|, addressLength, i);
      addresses := addresses + ["0x" + Substr(addressStr, addressLength * i, addressLength)];
      viewingKeys := viewingKeys + ["0x" + Substr(viewingKeysStr, viewingKeyLength * i, viewingKeyLength)];
      i := i + 1;
    }
    CeilDivBound(|addressStr|, addressLength, i);
  }

  // ---------------------------------------------------------------------
  // addAccess
  // ---------------------------------------------------------------------

  /** The two parallel lists of a metadata record: entry i of each is one
      grant. */
  datatype Access = Access(addresses: seq<string>, viewingKeys: seq<string>)

  predicate NoDuplicates(s: seq<string>)
  {
    forall i, j :: 0 <= i < j < |s| ==> s[i] != s[j]
  }

  /** The position of the first occurrence of x. */
  function FirstIndex(s: seq<string>, x: string): (k: nat)
    requires x in s
    ensures k < |s| && s[k] == x && x !in s[..k]
  {
    if s[0] == x then 0
    else
      var k := 1 + FirstIndex(s[1..], x);
      assert s[..k] == [s[0]] + s[1..][..k - 1];
      k
  }

  /** One step of `addAccess`: append the grant unless the address already
      has one. */
  function Grant(acc: Access, address: string, viewingKey: string): Access
  {
    if address in acc.addresses then acc
    else Access(acc.addresses + [address], acc.viewingKeys + [viewingKey])
  }

  /** `addAccess` with a batch of new addresses and their viewing keys (the
      key of `newAddresses[i]` is `newViewingKeys[i]`), taken in order. Each
      step sees the appends of the steps before it. */
  function Grants(acc: Access, newAddresses: seq<string>, newViewingKeys: seq<string>): (r: Access)
    requires |newAddresses| <= |newViewingKeys|
    ensures |r.addresses| <= |acc.addresses| + |newAddresses|
    ensures |r.viewingKeys| <= |acc.viewingKeys| + |newAddresses|
    decreases |newAddresses|
  {
    if newAddresses == [] then acc
    else Grants(Grant(acc, newAddresses[0], newViewingKeys[0]), newAddresses[1..], newViewingKeys[1..])
  }

  /** Existing grants are neither removed nor reordered, and the two lists
      grow by the same number of entries. */
  lemma {:induction false} GrantsOnlyAppend(acc: Access, newAddresses: seq<string>, newViewingKeys: seq<string>)
    requires |newAddresses| <= |newViewingKeys|
    ensures var r := Grants(acc, newAddresses, newViewingKeys);
      && |acc.addresses| <= |r.addresses| && r.addresses[..|acc.addresses|] == acc.addresses
      && |acc.viewingKeys| <= |r.viewingKeys| && r.viewingKeys[..|acc.viewingKeys|] == acc.viewingKeys
      && |r.addresses| - |acc.addresses| == |r.viewingKeys| - |acc.viewingKeys|
    decreases |newAddresses|
  {
    if newAddresses != [] {
      var g := Grant(acc, newAddresses[0], newViewingKeys[0]);
      GrantsOnlyAppend(g, newAddresses[1..], newViewingKeys[1..]);
      var r := Grants(g, newAddresses[1..], newViewingKeys[1..]);
      assert r.addresses[..|acc.addresses|] == r.addresses[..|g.addresses|][..|acc.addresses|];
      assert r.viewingKeys[..|acc.viewingKeys|] == r.viewingKeys[..|g.viewingKeys|][..|acc.viewingKeys|];
    }
  }

  /** Afterwards every address of the batch, and every address there was
      before, has a grant. */
  lemma {:induction false} GrantsCover(acc: Access, newAddresses: seq<string>, newViewingKeys: seq<string>)
    requires |newAddresses| <= |newViewingKeys|
    ensures var r := Grants(acc, newAddresses, newViewingKeys);
      && (forall x :: x in acc.addresses ==> x in r.addresses)
      && (forall i :: 0 <= i < |newAddresses| ==> newAddresses[i] in r.addresses)
    decreases |newAddresses|
  {
    if newAddresses != [] {
      var g := Grant(acc, newAddresses[0], newViewingKeys[0]);
      GrantsCover(g, newAddresses[1..], newViewingKeys[1..]);
      var r := Grants(g, newAddresses[1..], newViewingKeys[1..]);
      forall i | 0 <= i < |newAddresses| ensures newAddresses[i] in r.addresses {
        if i > 0 {
          assert newAddresses[i] == newAddresses[1..][i - 1];
        }
      }
    }
  }

  /** An address that is not among the first entries of r is not among
      the first entries of any shorter prefix either. */
  lemma NotInShorterPrefix(r: seq<string>, m: nat, j: nat, x: string)
    requires m <= j <= |r| && x !in r[..j]
    ensures x !in r[..m]
  {
    assert r[..j][..m] == r[..m];
  }

  /** Every appended grant is for an address of the batch that had none yet
      (neither before the call nor from an earlier entry of the batch), and
      carries the viewing key at that address's first position in the
      batch. */
  lemma {:induction false} GrantsAppendedAt(acc: Access, newAddresses: seq<string>, newViewingKeys: seq<string>, j: nat)
    requires |newAddresses| <= |newViewingKeys|
    requires |acc.addresses| == |acc.viewingKeys|
    requires |acc.addresses| <= j < |Grants(acc, newAddresses, newViewingKeys).addresses|
    ensures var r := Grants(acc, newAddresses, newViewingKeys);
      && j < |r.viewingKeys|
      && r.addresses[j] in newAddresses
      && r.addresses[j] !in r.addresses[..j]
      && r.viewingKeys[j] == newViewingKeys[FirstIndex(newAddresses, r.addresses[j])]
    decreases |newAddresses|
  {
    GrantsOnlyAppend(acc, newAddresses, newViewingKeys);
    var a0, k0 := newAddresses[0], newViewingKeys[0];
    var restA, restK := newAddresses[1..], newViewingKeys[1..];
    var g := Grant(acc, a0, k0);
    GrantsOnlyAppend(g, restA, restK);
    var r := Grants(g, restA, restK);
    if j < |g.addresses| {
      // the grant appended for the head of the batch
      assert r.addresses[j] == g.addresses[j] == a0;
      assert r.addresses[..j] == acc.addresses;
      assert r.viewingKeys[j] == g.viewingKeys[j] == k0;
    } else {
      GrantsAppendedAt(g, restA, restK, j);
      var x := r.addresses[j];
      NotInShorterPrefix(r.addresses, |g.addresses|, j, x);
      assert x != a0;
      assert FirstIndex(newAddresses, x) == 1 + FirstIndex(restA, x);
    }
  }

  /** The appended grants follow the order in which their addresses first
      appear in the batch. */
  lemma {:induction false} GrantsAppendInBatchOrder(acc: Access, newAddresses: seq<string>, newViewingKeys: seq<string>, j: nat)
    requires |newAddresses| <= |newViewingKeys|
    requires |acc.addresses| == |acc.viewingKeys|
    requires |acc.addresses| <= j && j + 1 < |Grants(acc, newAddresses, newViewingKeys).addresses|
    ensures var r := Grants(acc, newAddresses, newViewingKeys);
      && r.addresses[j] in newAddresses && r.addresses[j + 1] in newAddresses
      && FirstIndex(newAddresses, r.addresses[j]) < FirstIndex(newAddresses, r.addresses[j + 1])
    decreases |newAddresses|
  {
    var r := Grants(acc, newAddresses, newViewingKeys);
    var x, y := r.addresses[j], r.addresses[j + 1];
    assert x in newAddresses && x !in r.addresses[..j] && y in newAddresses && y !in r.addresses[..j + 1] by {
      GrantsAppendedAt(acc, newAddresses, newViewingKeys, j);
      GrantsAppendedAt(acc, newAddresses, newViewingKeys, j + 1);
    }
    var a0, k0 := newAddresses[0], newViewingKeys[0];
    var restA, restK := newAddresses[1..], newViewingKeys[1..];
    var g := Grant(acc, a0, k0);
    assert r == Grants(g, restA, restK);
    assert |g.addresses| == |g.viewingKeys| <= |acc.addresses| + 1 && a0 in g.addresses;
    assert r.addresses[..|g.addresses|] == g.addresses by {
      GrantsOnlyAppend(g, restA, restK);
    }
    assert y != a0 by {
      NotInShorterPrefix(r.addresses, |g.addresses|, j + 1, y);
    }
    FirstIndexOfTail(newAddresses, y);
    if j >= |g.addresses| {
      assert x != a0 by {
        NotInShorterPrefix(r.addresses, |g.addresses|, j, x);
      }
      FirstIndexOfTail(newAddresses, x);
      GrantsAppendInBatchOrder(g, restA, restK, j);
    } else {
      assert x == g.addresses[j];
    }
  }

  /** Past the head, the first occurrence is the first occurrence in the
      tail, one position further on. */
  lemma FirstIndexOfTail(s: seq<string>, x: string)
    requires x in s && x != s[0]
    ensures x in s[1..] && FirstIndex(s, x) == 1 + FirstIndex(s[1..], x)
  {
  }

  /** No address ever has two grants: if the lists had no repeated address
      before, they have none after, even when the batch repeats one. */
  lemma GrantsKeepNoDuplicates(acc: Access, newAddresses: seq<string>, newViewingKeys: seq<string>)
    requires |newAddresses| <= |newViewingKeys|
    requires |acc.addresses| == |acc.viewingKeys|
    requires NoDuplicates(acc.addresses)
    ensures NoDuplicates(Grants(acc, newAddresses, newViewingKeys).addresses)
  {
    var r := Grants(acc, newAddresses, newViewingKeys);
    GrantsOnlyAppend(acc, newAddresses, newViewingKeys);
    forall i, j | 0 <= i < j < |r.addresses| ensures r.addresses[i] != r.addresses[j] {
      if j < |acc.addresses| {
        assert r.addresses[i] == acc.addresses[i] && r.addresses[j] == acc.addresses[j];
      } else {
        GrantsAppendedAt(acc, newAddresses, newViewingKeys, j);
        assert r.addresses[..j][i] == r.addresses[i];
      }
    }
  }

  /** Re-adding addresses that all have a grant changes nothing, their
      viewing keys included. */
  lemma {:induction false} GrantsOfKnownAddressesIsNoOp(acc: Access, newAddresses: seq<string>, newViewingKeys: seq<string>)
    requires |newAddresses| <= |newViewingKeys|
    requires forall i :: 0 <= i < |newAddresses| ==> newAddresses[i] in acc.addresses
    ensures Grants(acc, newAddresses, newViewingKeys) == acc
    decreases |newAddresses|
  {
    if newAddresses != [] {
      assert newAddresses[0] in acc.addresses;
      forall i | 0 <= i < |newAddresses[1..]| ensures newAddresses[1..][i] in acc.addresses {
        assert newAddresses[1..][i] == newAddresses[i + 1];
      }
      GrantsOfKnownAddressesIsNoOp(acc, newAddresses[1..], newViewingKeys[1..]);
    }
  }

  /** Applying the same access a second time changes nothing. */
  lemma GrantsIdempotent(acc: Access, newAddresses: seq<string>, newViewingKeys: seq<string>)
    requires |newAddresses| <= |newViewingKeys|
    ensures var once := Grants(acc, newAddresses, newViewingKeys);
      Grants(once, newAddresses, newViewingKeys) == once
  {
    GrantsCover(acc, newAddresses, newViewingKeys);
    GrantsOfKnownAddressesIsNoOp(Grants(acc, newAddresses, newViewingKeys), newAddresses, newViewingKeys);
  }

  // ---------------------------------------------------------------------
  // The constructed record
  // ---------------------------------------------------------------------

  /** The field list walks over the string and defines both array fields. */
  predicate Parsable(config: seq<Field>, metadataStr: string)
  {
    && Walk(config, metadataStr).Some?
    && "addresses" in Walk(config, metadataStr).value.values
    && "viewingKeys" in Walk(config, metadataStr).value.values
  }

  /** The record `constructor` returns. It is one object: the lists that
      `addAccess` appends to are the very lists later readers of the record
      see. */
  class Metadata {
    /** The fields other than the two lists, as stored by the walk. */
    var values: map<string, string>
    var addresses: seq<string>
    var viewingKeys: seq<string>

    ghost predicate Valid()
      reads this
    {
      |addresses| == |viewingKeys|
    }

    function AccessLists(): Access
      reads this
    {
      Access(addresses, viewingKeys)
    }

    constructor (metadataStr: string, config: seq<Field>, addressLength: nat, viewingKeyLength: nat)
      requires Parsable(config, metadataStr)
      requires addressLength > 0
      ensures Valid()
      ensures var c := Walk(config, metadataStr).value;
        && values == c.values - {"addresses", "viewingKeys"}
        && |addresses| == CeilDiv(|c.values["addresses"]|, addressLength)
        && forall i :: 0 <= i < |addresses| ==>
             addresses[i] == "0x" + Chunk(c.values["addresses"], addressLength, i) &&
             viewingKeys[i] == "0x" + Chunk(c.values["viewingKeys"], viewingKeyLength, i)
    {
      var fields, _ := ParseFields(config, metadataStr);
      var addressList, viewingKeyList := SplitAccounts(fields["addresses"], fields["viewingKeys"], addressLength, viewingKeyLength);
      values := fields - {"addresses", "viewingKeys"};
      addresses := addressList;
      viewingKeys := viewingKeyList;
    }

    /** `addAccess`: appends, in place, a grant for every address of the
        batch that has none yet. */
    method AddAccess(newAddresses: seq<string>, newViewingKeys: seq<string>)
      requires |newAddresses| <= |newViewingKeys|
      requires Valid()
      modifies this
      ensures Valid()
      ensures values == old(values)
      ensures AccessLists() == Grants(old(AccessLists()), newAddresses, newViewingKeys)
    {
      ghost var start := AccessLists();
      for i := 0 to |newAddresses|
        invariant |addresses| == |viewingKeys|
        invariant values == old(values)
        invariant Grants(start, newAddresses, newViewingKeys)
          == Grants(AccessLists(), newAddresses[i..], newViewingKeys[i..])
      {
        assert newAddresses[i..][1..] == newAddresses[i + 1..];
        assert newViewingKeys[i..][1..] == newViewingKeys[i + 1..];
        var a := newAddresses[i];
        if a !in addresses {
          addresses := addresses + [a];
          viewingKeys := viewingKeys + [newViewingKeys[i]];
        }
      }
      assert newAddresses[|newAddresses|..] == [];
    }
  }
}
