/** Tipsets: a sorted, validated and keyed collection of block headers. */
module Tipsets {
  import opened Bits
  import opened Orders
  import opened Wrappers

  type Cid = seq<nat>
  type Ticket = seq<nat>

  /** `other` stands for the header fields that only the cid depends on. */
  datatype BlockHeader = BlockHeader(ticket: Ticket, parents: seq<Cid>, height: int, other: seq<nat>)

  datatype TipsetError =
    | EmptyBlocks
    | MismatchingHeight(expectedHeight: U64, foundHeight: U64)
    | MismatchingParent(expectedParent: Cid, foundParent: Cid)

  datatype Tipset = Tipset(key: seq<Cid>, blocks: seq<BlockHeader>, height: int)

  /** `OutOfRange` is the panic of indexing past the parents of the first block. */
  datatype Outcome = Built(tipset: Tipset) | Refused(error: TipsetError) | OutOfRange

  /** The hash of a header and the order of hashes are given. */
  datatype Hashing = Hashing(cid: BlockHeader -> Cid, cidLeq: (Cid, Cid) -> bool)
  {
    ghost predicate Valid() {
      TotalOrder(cidLeq)
    }
  }

  /** The comparison of `sort_by`: by ticket, then by cid. */
  predicate BlockLeq(h: Hashing, i: BlockHeader, j: BlockHeader) {
    if i.ticket == j.ticket then h.cidLeq(h.cid(i), h.cid(j)) else LexLeq(NatLeq, i.ticket, j.ticket)
  }

  function ByTicket(h: Hashing): (r: (BlockHeader, BlockHeader) -> bool) {
    (i: BlockHeader, j: BlockHeader) => BlockLeq(h, i, j)
  }

  /** No two different blocks of the collection have the same cid. */
  ghost predicate CollisionFree(h: Hashing, blocks: seq<BlockHeader>) {
    forall i, j :: i in blocks && j in blocks && h.cid(i) == h.cid(j) ==> i == j
  }

  ghost predicate Sorting(h: Hashing, sorted: seq<BlockHeader>, blocks: seq<BlockHeader>) {
    multiset(sorted) == multiset(blocks) && SortedBy(ByTicket(h), sorted)
  }

  function AsU64(n: int): (u: U64) {
    n % U64_SIZE
  }

  /** The parents loop: each parent from `i` on is compared with the one of the first block. */
  function CheckParents(first: seq<Cid>, parents: seq<Cid>, i: nat): (o: Option<Outcome>)
    requires i <= |parents|
    decreases |parents| - i
  {
    if i == |parents| then None
    else if i >= |first| then Some(OutOfRange)
    else if parents[i] != first[i] then Some(Refused(MismatchingParent(first[i], parents[i])))
    else CheckParents(first, parents, i + 1)
  }

  function CheckBlock(first: BlockHeader, b: BlockHeader): (o: Option<Outcome>) {
    if b.height != first.height then Some(Refused(MismatchingHeight(AsU64(first.height), AsU64(b.height))))
    else CheckParents(first.parents, b.parents, 0)
  }

  /** The first complaint about the blocks from `k` on. */
  function CheckFrom(blocks: seq<BlockHeader>, k: nat): (o: Option<Outcome>)
    requires blocks != [] && k <= |blocks|
    decreases |blocks| - k
  {
    if k == |blocks| then None
    else match CheckBlock(blocks[0], blocks[k])
      case Some(o) => Some(o)
      case None => CheckFrom(blocks, k + 1)
  }

  function Cids(h: Hashing, blocks: seq<BlockHeader>): (cids: seq<Cid>)
    ensures |cids| == |blocks|
    ensures forall i :: 0 <= i < |blocks| ==> cids[i] == h.cid(blocks[i])
  {
    seq(|blocks|, i requires 0 <= i < |blocks| => h.cid(blocks[i]))
  }

  /** What `Tipset::new` makes of already sorted blocks. */
  function Build(h: Hashing, sorted: seq<BlockHeader>): (o: Outcome) {
    if sorted == [] then Refused(EmptyBlocks)
    else match CheckFrom(sorted, 0)
      case Some(o) => o
      case None => Built(Tipset(Cids(h, sorted), sorted, sorted[0].height))
  }

  // ---- the order of blocks ------------------------------------------------------------------

  lemma BlockOrder(h: Hashing, i: BlockHeader, j: BlockHeader, k: BlockHeader)
    requires h.Valid()
    ensures BlockLeq(h, i, j) || BlockLeq(h, j, i)
    ensures BlockLeq(h, i, j) && BlockLeq(h, j, k) ==> BlockLeq(h, i, k)
    ensures BlockLeq(h, i, j) && BlockLeq(h, j, i) ==> h.cid(i) == h.cid(j)
  {
    NatTotal();
    LexConnected(NatLeq, i.ticket, j.ticket);
    if LexLeq(NatLeq, i.ticket, j.ticket) && LexLeq(NatLeq, j.ticket, k.ticket) {
      LexTrans(NatLeq, i.ticket, j.ticket, k.ticket);
      if i.ticket == k.ticket { LexAntisym(NatLeq, i.ticket, j.ticket); }
    }
    if LexLeq(NatLeq, i.ticket, j.ticket) && LexLeq(NatLeq, j.ticket, i.ticket) {
      LexAntisym(NatLeq, i.ticket, j.ticket);
    }
  }

  /** A tipset does not depend on the order its blocks are given in, nor on how they are sorted. */
  lemma Canonical(h: Hashing, xs: seq<BlockHeader>, ys: seq<BlockHeader>, sx: seq<BlockHeader>, sy: seq<BlockHeader>)
    requires h.Valid() && CollisionFree(h, xs)
    requires multiset(xs) == multiset(ys) && Sorting(h, sx, xs) && Sorting(h, sy, ys)
    ensures sx == sy && Build(h, sx) == Build(h, sy)
  {
    var leq := ByTicket(h);
    forall i, j | i in sx && j in sx && leq(i, j) && leq(j, i)
      ensures i == j
    {
      assert i in multiset(sx) && j in multiset(sx);
      assert i in xs && j in xs;
      BlockOrder(h, i, j, j);
    }
    SortedUnique(leq, sx, sy);
  }

  // ---- what is accepted ---------------------------------------------------------------------

  /** The parents check passes exactly prefixes of the first block's parents; it panics exactly when the first
      block's parents are a proper prefix; else it names the first difference. */
  lemma {:induction false} ParentsAccepted(first: seq<Cid>, parents: seq<Cid>, i: nat)
    requires i <= |parents| && i <= |first| && parents[..i] == first[..i]
    ensures CheckParents(first, parents, i).None? <==> parents <= first
    ensures CheckParents(first, parents, i) == Some(OutOfRange) <==> first < parents
    decreases |parents| - i
  {
    if i < |parents| && i < |first| {
      if parents[i] == first[i] {
        assert parents[..i + 1] == parents[..i] + [parents[i]] && first[..i + 1] == first[..i] + [first[i]];
        ParentsAccepted(first, parents, i + 1);
      }
    }
  }

  lemma {:induction false} BlocksAccepted(blocks: seq<BlockHeader>, k: nat)
    requires blocks != [] && k <= |blocks|
    ensures CheckFrom(blocks, k).None?
        <==> forall j :: k <= j < |blocks| ==> CheckBlock(blocks[0], blocks[j]).None?
    decreases |blocks| - k
  {
    if k < |blocks| { BlocksAccepted(blocks, k + 1); }
  }

  /** A tipset is built exactly when there are blocks, all of one height, whose parents are prefixes of the first
      block's; it then holds the sorted blocks, their cids in order and their height. */
  lemma BuiltIff(h: Hashing, sorted: seq<BlockHeader>)
    ensures Build(h, sorted).Built?
        <==> sorted != []
             && forall j :: 0 <= j < |sorted| ==>
                  sorted[j].height == sorted[0].height && sorted[j].parents <= sorted[0].parents
    ensures Build(h, sorted).Built? ==>
      var t := Build(h, sorted).tipset;
      t.blocks == sorted && t.height == sorted[0].height && |t.key| == |sorted|
      && forall j :: 0 <= j < |sorted| ==> t.key[j] == h.cid(sorted[j])
    ensures Build(h, sorted) == Refused(EmptyBlocks) ==> sorted == []
  {
    if sorted != [] {
      BlocksAccepted(sorted, 0);
      forall j | 0 <= j < |sorted|
        ensures CheckBlock(sorted[0], sorted[j]).None?
            <==> sorted[j].height == sorted[0].height && sorted[j].parents <= sorted[0].parents
      {
        ParentsAccepted(sorted[0].parents, sorted[j].parents, 0);
      }
      ComplaintNotEmpty(sorted, 0);
    }
  }

  lemma {:induction false} ComplaintNotEmpty(blocks: seq<BlockHeader>, k: nat)
    requires blocks != [] && k <= |blocks|
    ensures CheckFrom(blocks, k) != Some(Refused(EmptyBlocks)) && (CheckFrom(blocks, k).Some? ==> !CheckFrom(blocks, k).value.Built?)
    decreases |blocks| - k
  {
    if k < |blocks| {
      ParentComplaint(blocks[0].parents, blocks[k].parents, 0);
      ComplaintNotEmpty(blocks, k + 1);
    }
  }

  lemma {:induction false} ParentComplaint(first: seq<Cid>, parents: seq<Cid>, i: nat)
    requires i <= |parents|
    ensures
      var o := CheckParents(first, parents, i);
      o.Some? ==> o.value.OutOfRange? || (o.value.Refused? && o.value.error.MismatchingParent?)
    decreases |parents| - i
  {
    if i < |parents| { ParentComplaint(first, parents, i + 1); }
  }

  /** Block `j` passes all checks against the first block. */
  predicate Passes(blocks: seq<BlockHeader>, j: nat)
    requires j < |blocks|
  {
    blocks[j].height == blocks[0].height && blocks[j].parents <= blocks[0].parents
  }

  /** Block `j` has the right height, and parents that go on past the first block's; all before it pass. */
  ghost predicate FirstPastParents(blocks: seq<BlockHeader>, k: nat, j: nat)
    requires j < |blocks|
  {
    && blocks[j].height == blocks[0].height
    && blocks[0].parents < blocks[j].parents
    && forall i :: k <= i < j ==> Passes(blocks, i)
  }

  lemma {:induction false} CheckPanics(blocks: seq<BlockHeader>, k: nat)
    requires blocks != [] && k <= |blocks|
    ensures CheckFrom(blocks, k) == Some(OutOfRange)
        <==> exists j :: k <= j < |blocks| && FirstPastParents(blocks, k, j)
    decreases |blocks| - k
  {
    if k < |blocks| {
      CheckPanics(blocks, k + 1);
      ParentsAccepted(blocks[0].parents, blocks[k].parents, 0);
      if CheckBlock(blocks[0], blocks[k]).None? {
        assert Passes(blocks, k) && !FirstPastParents(blocks, k, k);
        forall j | k < j < |blocks|
          ensures FirstPastParents(blocks, k, j) <==> FirstPastParents(blocks, k + 1, j)
        {
        }
        assert CheckFrom(blocks, k) == CheckFrom(blocks, k + 1);
        if CheckFrom(blocks, k) == Some(OutOfRange) {
          var j :| k + 1 <= j < |blocks| && FirstPastParents(blocks, k + 1, j);
          assert FirstPastParents(blocks, k, j);
        }
      } else {
        assert !Passes(blocks, k);
        if CheckBlock(blocks[0], blocks[k]) == Some(OutOfRange) { assert FirstPastParents(blocks, k, k); }
      }
    }
  }

  /** Construction panics exactly when, among the sorted blocks, the first that fails a check has the right height
      and parents that go on past the first block's. With `BuiltIff`, all else is an error. */
  lemma PanicIff(h: Hashing, sorted: seq<BlockHeader>)
    ensures Build(h, sorted) == OutOfRange
        <==> exists j :: 0 <= j < |sorted| && FirstPastParents(sorted, 0, j)
  {
    if sorted != [] { CheckPanics(sorted, 0); }
  }

  /** So two sorted blocks, the second's parents going on past the first's, panic. */
  lemma LongerParentsPanic(h: Hashing, a: BlockHeader, b: BlockHeader)
    requires BlockLeq(h, a, b) && a.height == b.height && a.parents < b.parents
    ensures Sorting(h, [a, b], [b, a]) && Build(h, [a, b]) == OutOfRange
  {
    var sorted := [a, b];
    assert forall i, j :: 0 <= i < j < |sorted| ==> ByTicket(h)(sorted[i], sorted[j]);
    assert FirstPastParents(sorted, 0, 1);
    PanicIff(h, sorted);
  }

  /** The outcome is decided by the first block that fails a check: a refusal naming the first block's height and its
      own; a refusal naming the first parent that differs, expected and found; or the panic. */
  lemma FirstFailure(h: Hashing, sorted: seq<BlockHeader>, j: nat)
    requires j < |sorted| && !Passes(sorted, j) && forall i :: 0 <= i < j ==> Passes(sorted, i)
    ensures
      var first, bad := sorted[0], sorted[j];
      if bad.height != first.height then
        Build(h, sorted) == Refused(MismatchingHeight(AsU64(first.height), AsU64(bad.height)))
      else if first.parents < bad.parents then
        Build(h, sorted) == OutOfRange
      else
        exists k :: FirstDiffer(first.parents, bad.parents, k)
          && Build(h, sorted) == Refused(MismatchingParent(first.parents[k], bad.parents[k]))
  {
    PassesUpTo(sorted, 0, j);
    var first, bad := sorted[0], sorted[j];
    if bad.height == first.height && !(first.parents < bad.parents) {
      var k := ParentDiffers(first.parents, bad.parents, 0);
    } else {
      ParentsAccepted(first.parents, bad.parents, 0);
    }
  }

  lemma {:induction false} PassesUpTo(blocks: seq<BlockHeader>, k: nat, j: nat)
    requires k <= j < |blocks| && forall i :: k <= i < j ==> Passes(blocks, i)
    ensures CheckFrom(blocks, k) == CheckFrom(blocks, j)
    decreases j - k
  {
    if k < j {
      assert Passes(blocks, k);
      ParentsAccepted(blocks[0].parents, blocks[k].parents, 0);
      PassesUpTo(blocks, k + 1, j);
    }
  }

  lemma {:induction false} ParentDiffers(first: seq<Cid>, parents: seq<Cid>, i: nat) returns (k: nat)
    requires i <= |parents| && i <= |first| && parents[..i] == first[..i]
    requires !(parents <= first) && !(first < parents)
    ensures FirstDiffer(first, parents, k)
    ensures CheckParents(first, parents, i) == Some(Refused(MismatchingParent(first[k], parents[k])))
    decreases |parents| - i
  {
    k := i;
    if parents[i] == first[i] {
      assert parents[..i + 1] == parents[..i] + [parents[i]] && first[..i + 1] == first[..i] + [first[i]];
      k := ParentDiffers(first, parents, i + 1);
    }
  }

  /** In a tipset, an earlier block has the smaller ticket, as strings of bytes, or the same ticket and a cid that is
      no larger; the key lists the cids in that order. */
  lemma BlocksInOrder(h: Hashing, blocks: seq<BlockHeader>, sorted: seq<BlockHeader>, i: nat, j: nat)
    requires Sorting(h, sorted, blocks) && Build(h, sorted).Built? && i < j < |sorted|
    ensures
      var key := Build(h, sorted).tipset.key;
      && |key| == |sorted|
      && (|| Before(NatLess, sorted[i].ticket, sorted[j].ticket)
          || (sorted[i].ticket == sorted[j].ticket && h.cidLeq(key[i], key[j])))
  {
    BuiltIff(h, sorted);
    assert ByTicket(h)(sorted[i], sorted[j]);
    NatBefore(sorted[i].ticket, sorted[j].ticket);
  }

  // ---- the methods --------------------------------------------------------------------------

  lemma TicketPreorder(h: Hashing)
    requires h.Valid()
    ensures TotalPreorder(ByTicket(h))
  {
    var leq := ByTicket(h);
    forall i, j, k
      ensures leq(i, j) || leq(j, i)
      ensures leq(i, j) && leq(j, k) ==> leq(i, k)
    {
      BlockOrder(h, i, j, k);
    }
    assert forall i, j :: leq(i, j) || leq(j, i);
  }

  method New(h: Hashing, blocks: seq<BlockHeader>) returns (o: Outcome)
    requires h.Valid()
    ensures exists sorted :: Sorting(h, sorted, blocks) && o == Build(h, sorted)
  {
    if blocks == [] {
      assert Sorting(h, [], blocks);
      return Refused(EmptyBlocks);
    }
    TicketPreorder(h);
    var sorted := Sort(ByTicket(h), blocks);
    assert Sorting(h, sorted, blocks);
    assert |sorted| == |multiset(sorted)| == |multiset(blocks)| == |blocks|;
    var cids := [];
    var height := sorted[0].height;
    var k := 0;
    while k < |sorted|
      invariant 0 <= k <= |sorted|
      invariant CheckFrom(sorted, 0) == CheckFrom(sorted, k)
      invariant cids == Cids(h, sorted[..k])
    {
      var block := sorted[k];
      if block.height != height {
        return Refused(MismatchingHeight(AsU64(height), AsU64(block.height)));
      }
      var i := 0;
      while i < |block.parents|
        invariant 0 <= i <= |block.parents|
        invariant CheckBlock(sorted[0], block) == CheckParents(sorted[0].parents, block.parents, i)
      {
        if i >= |sorted[0].parents| {
          return OutOfRange;
        }
        if block.parents[i] != sorted[0].parents[i] {
          return Refused(MismatchingParent(sorted[0].parents[i], block.parents[i]));
        }
        i := i + 1;
      }
      cids := cids + [h.cid(block)];
      k := k + 1;
    }
    assert sorted[..k] == sorted;
    return Built(Tipset(cids, sorted, height));
  }

  /** Block `at` has the least ticket, and no earlier block has the same. */
  predicate FirstLeast(blocks: seq<BlockHeader>, at: int) {
    && 0 <= at < |blocks|
    && (forall i :: 0 <= i < |blocks| ==> LexLeq(NatLeq, blocks[at].ticket, blocks[i].ticket))
    && (forall i :: 0 <= i < at ==> blocks[at].ticket != blocks[i].ticket)
  }

  /** The first block with the least ticket; of a sorted tipset that is its first block. */
  method MinTicketBlock(h: Hashing, t: Tipset) returns (b: BlockHeader)
    requires t.blocks != []
    ensures exists at :: FirstLeast(t.blocks, at) && b == t.blocks[at]
    ensures SortedBy(ByTicket(h), t.blocks) ==> b == t.blocks[0]
  {
    b := t.blocks[0];
    var k := 0;
    ghost var at := 0;
    LexRefl(NatLeq, b.ticket);
    while k < |t.blocks|
      invariant 0 <= k <= |t.blocks|
      invariant 0 <= at < |t.blocks| && b == t.blocks[at]
      invariant forall i :: 0 <= i < k ==> LexLeq(NatLeq, b.ticket, t.blocks[i].ticket)
      invariant forall i :: 0 <= i < at ==> b.ticket != t.blocks[i].ticket
      invariant at == 0 || at < k
    {
      LowerTicket(t.blocks, k, at);
      if TicketLess(t.blocks[k].ticket, b.ticket) {
        b := t.blocks[k];
        at := k;
      }
      k := k + 1;
    }
    assert FirstLeast(t.blocks, at);
    if SortedBy(ByTicket(h), t.blocks) {
      FirstTicket(h, t.blocks, at);
    }
  }

  predicate TicketLess(a: Ticket, b: Ticket) {
    Cmp(Lex(NatLeq), a, b) == Less
  }

  /** A ticket below the least one so far is below all of them. */
  lemma LowerTicket(blocks: seq<BlockHeader>, k: nat, at: nat)
    requires at < |blocks| && k < |blocks|
    requires forall i :: 0 <= i < k ==> LexLeq(NatLeq, blocks[at].ticket, blocks[i].ticket)
    ensures
      if TicketLess(blocks[k].ticket, blocks[at].ticket) then
        && (forall i :: 0 <= i <= k ==> LexLeq(NatLeq, blocks[k].ticket, blocks[i].ticket))
        && (forall i :: 0 <= i < k ==> blocks[k].ticket != blocks[i].ticket)
      else LexLeq(NatLeq, blocks[at].ticket, blocks[k].ticket)
  {
    NatTotal();
    var x, y := blocks[k].ticket, blocks[at].ticket;
    LexConnected(NatLeq, x, y);
    LexRefl(NatLeq, x);
    if TicketLess(x, y) {
      forall i | 0 <= i < k
        ensures LexLeq(NatLeq, x, blocks[i].ticket) && x != blocks[i].ticket
      {
        LexTrans(NatLeq, x, y, blocks[i].ticket);
        if x == blocks[i].ticket { LexAntisym(NatLeq, x, y); }
      }
    }
  }

  lemma FirstTicket(h: Hashing, blocks: seq<BlockHeader>, at: nat)
    requires at < |blocks| && SortedBy(ByTicket(h), blocks)
    requires LexLeq(NatLeq, blocks[at].ticket, blocks[0].ticket)
    requires forall i :: 0 <= i < at ==> blocks[at].ticket != blocks[i].ticket
    ensures at == 0
  {
    if at != 0 {
      NatTotal();
      assert ByTicket(h)(blocks[0], blocks[at]);
      LexAntisym(NatLeq, blocks[at].ticket, blocks[0].ticket);
    }
  }
}
