/** Unblinding: a signed blinded block and the delivered payload give the full signed block. Hash tree
    roots follow the "Merkleization" and "Summaries and expansions" sections of the Ethereum
    consensus-specs ssz/simple-serialize.md: a binary tree over the field roots, an abstract hash of two
    nodes, and lists mixed with their length. Fields of library types are opaque and have a given root.
 */
module Unblinding {
  import opened Common

  type Root = nat

  /** `pair` is the hash of two nodes, `leaf` the root of a library value, `number` a length as a node. */
  datatype Hasher<!O> = Hasher(pair: (Root, Root) -> Root, zero: Root, leaf: O -> Root, number: nat -> Root)

  // ---------------------------------------------------------------- merkleization

  function Pow2(d: nat): (p: nat)
    ensures p > 0
  {
    if d == 0 then 1 else 2 * Pow2(d - 1)
  }

  /** The root of a tree of depth `d` whose leaves are the chunks, padded with zero chunks. */
  function Merkleize<O>(h: Hasher<O>, chunks: seq<Root>, d: nat): Root
    requires |chunks| <= Pow2(d)
    decreases d
  {
    if d == 0 then (if chunks == [] then h.zero else chunks[0])
    else
      var half := Pow2(d - 1);
      if |chunks| <= half then h.pair(Merkleize(h, chunks, d - 1), Merkleize(h, [], d - 1))
      else h.pair(Merkleize(h, chunks[..half], d - 1), Merkleize(h, chunks[half..], d - 1))
  }

  function LeafRoots<O>(h: Hasher<O>, xs: seq<O>): (r: seq<Root>)
    ensures |r| == |xs|
  {
    if xs == [] then [] else [h.leaf(xs[0])] + LeafRoots(h, xs[1..])
  }

  /** The root of a list with a limit of 2^d items. */
  function ListRoot<O>(h: Hasher<O>, xs: seq<O>, d: nat): Root
    requires |xs| <= Pow2(d)
  {
    h.pair(Merkleize(h, LeafRoots(h, xs), d), h.number(|xs|))
  }

  /** The hash of two nodes is collision-free. */
  ghost predicate CollisionFree<O>(h: Hasher<O>) {
    forall a, b, c, d :: h.pair(a, b) == h.pair(c, d) ==> a == c && b == d
  }

  /** Then equally long chunk lists with one root are equal. */
  lemma {:induction false} MerkleizeInjective<O>(h: Hasher<O>, xs: seq<Root>, ys: seq<Root>, d: nat)
    requires CollisionFree(h) && |xs| == |ys| <= Pow2(d)
    requires Merkleize(h, xs, d) == Merkleize(h, ys, d)
    ensures xs == ys
  {
    if d > 0 {
      var half := Pow2(d - 1);
      if |xs| <= half {
        MerkleizeInjective(h, xs, ys, d - 1);
      } else {
        MerkleizeInjective(h, xs[..half], ys[..half], d - 1);
        MerkleizeInjective(h, xs[half..], ys[half..], d - 1);
        assert xs == xs[..half] + xs[half..] && ys == ys[..half] + ys[half..];
      }
    }
  }

  // ---------------------------------------------------------------- the same tree, level by level

  function Zeros<O>(h: Hasher<O>, n: nat): seq<Root> {
    seq(n, _ => h.zero)
  }

  /** The chunks filled up with zero chunks to a whole level. */
  function Padded<O>(h: Hasher<O>, chunks: seq<Root>, d: nat): (r: seq<Root>)
    requires |chunks| <= Pow2(d)
    ensures |r| == Pow2(d)
  {
    chunks + Zeros(h, Pow2(d) - |chunks|)
  }

  /** The next level: neighbours are hashed in pairs, from the left. */
  function PairUp<O>(h: Hasher<O>, xs: seq<Root>): (r: seq<Root>)
    requires |xs| % 2 == 0
    ensures |r| == |xs| / 2
  {
    if xs == [] then [] else [h.pair(xs[0], xs[1])] + PairUp(h, xs[2..])
  }

  /** The root of a whole level of 2^d nodes, by hashing level after level. */
  function RootByLevels<O>(h: Hasher<O>, xs: seq<Root>, d: nat): Root
    requires |xs| == Pow2(d)
    decreases d
  {
    if d == 0 then xs[0] else RootByLevels(h, PairUp(h, xs), d - 1)
  }

  lemma PaddedHalves<O>(h: Hasher<O>, chunks: seq<Root>, d: nat)
    requires d > 0 && |chunks| <= Pow2(d)
    ensures var half := Pow2(d - 1);
            var cut := if |chunks| <= half then |chunks| else half;
            && Padded(h, chunks, d)[..half] == Padded(h, chunks[..cut], d - 1)
            && Padded(h, chunks, d)[half..] == Padded(h, chunks[cut..], d - 1)
  {
  }

  /** The root of a tree is the hash of the roots of its halves. */
  lemma RootOfHalves<O>(h: Hasher<O>, chunks: seq<Root>, d: nat)
    requires d > 0 && |chunks| <= Pow2(d)
    ensures var half := Pow2(d - 1);
            var cut := if |chunks| <= half then |chunks| else half;
            Merkleize(h, chunks, d) == h.pair(Merkleize(h, chunks[..cut], d - 1), Merkleize(h, chunks[cut..], d - 1))
  {
    assert chunks[..|chunks|] == chunks && chunks[|chunks|..] == [];
  }

  lemma OneLeafPadded<O>(h: Hasher<O>, chunks: seq<Root>)
    requires |chunks| <= 1
    ensures Merkleize(h, chunks, 0) == Merkleize(h, Padded(h, chunks, 0), 0)
  {
  }

  lemma {:induction false} PaddingChangesNothing<O>(h: Hasher<O>, chunks: seq<Root>, d: nat)
    requires |chunks| <= Pow2(d)
    ensures Merkleize(h, chunks, d) == Merkleize(h, Padded(h, chunks, d), d)
    decreases d
  {
    hide Merkleize, Padded;
    if d == 0 {
      OneLeafPadded(h, chunks);
    } else {
      var half := Pow2(d - 1);
      var cut := if |chunks| <= half then |chunks| else half;
      PaddedHalves(h, chunks, d);
      RootOfHalves(h, chunks, d);
      RootOfHalves(h, Padded(h, chunks, d), d);
      PaddingChangesNothing(h, chunks[..cut], d - 1);
      PaddingChangesNothing(h, chunks[cut..], d - 1);
    }
  }

  lemma {:induction false} PairUpAppend<O>(h: Hasher<O>, xs: seq<Root>, ys: seq<Root>)
    requires |xs| % 2 == 0 && |ys| % 2 == 0
    ensures PairUp(h, xs + ys) == PairUp(h, xs) + PairUp(h, ys)
  {
    if xs == [] {
      assert xs + ys == ys;
    } else {
      assert (xs + ys)[2..] == xs[2..] + ys;
      PairUpAppend(h, xs[2..], ys);
    }
  }

  lemma PairUpHalves<O>(h: Hasher<O>, xs: seq<Root>, d: nat)
    requires d > 1 && |xs| == Pow2(d)
    ensures var half, quarter := Pow2(d - 1), Pow2(d - 2);
            && half == 2 * quarter && |xs| % 2 == 0 && |xs[..half]| % 2 == 0 && |xs[half..]| % 2 == 0
            && PairUp(h, xs)[..quarter] == PairUp(h, xs[..half]) && PairUp(h, xs)[quarter..] == PairUp(h, xs[half..])
  {
    var half := Pow2(d - 1);
    hide PairUp;
    PairUpAppend(h, xs[..half], xs[half..]);
    assert xs == xs[..half] + xs[half..];
  }

  lemma TwoLeaves<O>(h: Hasher<O>, xs: seq<Root>)
    requires |xs| == 2
    ensures Merkleize(h, xs, 1) == Merkleize(h, PairUp(h, xs), 0)
  {
    assert xs[..1] == [xs[0]] && xs[1..] == [xs[1]] && xs[2..] == [];
    assert PairUp(h, xs) == [h.pair(xs[0], xs[1])];
  }

  lemma {:induction false} OneLevel<O>(h: Hasher<O>, xs: seq<Root>, d: nat)
    requires d > 0 && |xs| == Pow2(d)
    ensures |xs| % 2 == 0 && Merkleize(h, xs, d) == Merkleize(h, PairUp(h, xs), d - 1)
    decreases d
  {
    hide Merkleize, PairUp;
    if d == 1 {
      TwoLeaves(h, xs);
    } else {
      var half := Pow2(d - 1);
      PairUpHalves(h, xs, d);
      RootOfHalves(h, xs, d);
      RootOfHalves(h, PairUp(h, xs), d - 1);
      OneLevel(h, xs[..half], d - 1);
      OneLevel(h, xs[half..], d - 1);
    }
  }

  lemma {:induction false} FullTreeIsLevels<O>(h: Hasher<O>, xs: seq<Root>, d: nat)
    requires |xs| == Pow2(d)
    ensures Merkleize(h, xs, d) == RootByLevels(h, xs, d)
    decreases d
  {
    if d > 0 {
      OneLevel(h, xs, d);
      hide Merkleize, PairUp;
      FullTreeIsLevels(h, PairUp(h, xs), d - 1);
    }
  }

  /** The recursive tree with virtual padding is the standard's: pad with zero chunks, hash pairs level by level. */
  lemma MerkleizeIsLevels<O>(h: Hasher<O>, chunks: seq<Root>, d: nat)
    requires |chunks| <= Pow2(d)
    ensures Merkleize(h, chunks, d) == RootByLevels(h, Padded(h, chunks, d), d)
  {
    PaddingChangesNothing(h, chunks, d);
    FullTreeIsLevels(h, Padded(h, chunks, d), d);
  }

  lemma {:induction false} LeafRootAt<O>(h: Hasher<O>, xs: seq<O>, i: nat)
    requires i < |xs|
    ensures LeafRoots(h, xs)[i] == h.leaf(xs[i])
  {
    if i > 0 {
      LeafRootAt(h, xs[1..], i - 1);
    }
  }

  /** A list root, written out: the item roots filled up to the limit and hashed level by level, then the length. */
  lemma ListRootIs<O>(h: Hasher<O>, xs: seq<O>, d: nat)
    requires |xs| <= Pow2(d)
    ensures var level := seq(Pow2(d), i requires 0 <= i => if i < |xs| then h.leaf(xs[i]) else h.zero);
            ListRoot(h, xs, d) == h.pair(RootByLevels(h, level, d), h.number(|xs|))
  {
    hide Merkleize, RootByLevels, LeafRoots;
    var level := seq(Pow2(d), i requires 0 <= i => if i < |xs| then h.leaf(xs[i]) else h.zero);
    MerkleizeIsLevels(h, LeafRoots(h, xs), d);
    assert Padded(h, LeafRoots(h, xs), d) == level by {
      forall i | 0 <= i < |xs|
        ensures LeafRoots(h, xs)[i] == h.leaf(xs[i])
      {
        LeafRootAt(h, xs, i);
      }
    }
  }

  // ---------------------------------------------------------------- a root pins what is below it

  /** Besides the node hash, roots of library values and lengths as nodes are collision-free. */
  ghost predicate Injective<O(!new)>(h: Hasher<O>) {
    && CollisionFree(h)
    && (forall x, y :: h.leaf(x) == h.leaf(y) ==> x == y)
    && (forall m, n :: h.number(m) == h.number(n) ==> m == n)
  }

  lemma {:induction false} LeafRootsInjective<O(!new)>(h: Hasher<O>, xs: seq<O>, ys: seq<O>)
    requires Injective(h) && LeafRoots(h, xs) == LeafRoots(h, ys)
    ensures xs == ys
  {
    assert |xs| == |LeafRoots(h, xs)| == |LeafRoots(h, ys)| == |ys|;
    if xs != [] {
      assert LeafRoots(h, xs)[0] == h.leaf(xs[0]) && LeafRoots(h, ys)[0] == h.leaf(ys[0]);
      assert LeafRoots(h, xs)[1..] == LeafRoots(h, xs[1..]) && LeafRoots(h, ys)[1..] == LeafRoots(h, ys[1..]);
      LeafRootsInjective(h, xs[1..], ys[1..]);
      assert xs == [xs[0]] + xs[1..] && ys == [ys[0]] + ys[1..];
    }
  }

  /** A list root pins the list: every item, their order and their number. */
  lemma ListRootInjective<O(!new)>(h: Hasher<O>, xs: seq<O>, ys: seq<O>, d: nat)
    requires Injective(h) && |xs| <= Pow2(d) && |ys| <= Pow2(d) && ListRoot(h, xs, d) == ListRoot(h, ys, d)
    ensures xs == ys
  {
    hide Merkleize, LeafRoots, Pow2;
    assert Merkleize(h, LeafRoots(h, xs), d) == Merkleize(h, LeafRoots(h, ys), d) && |xs| == |ys|;
    MerkleizeInjective(h, LeafRoots(h, xs), LeafRoots(h, ys), d);
    LeafRootsInjective(h, xs, ys);
  }

  // ---------------------------------------------------------------- payloads and headers

  predicate HasBlobs(v: Version) {
    v == Deneb || v == Electra || v == Fulu
  }

  predicate HasRequests(v: Version) {
    v == Electra || v == Fulu
  }

  datatype BlobGas<O> = BlobGas(blobGasUsed: O, excessBlobGas: O)

  /** The fields a payload shares with its header, in order. */
  datatype PayloadCore<O> = PayloadCore(
    parentHash: O, feeRecipient: O, stateRoot: O, receiptsRoot: O, logsBloom: O, prevRandao: O, blockNumber: O,
    gasLimit: O, gasUsed: O, timestamp: O, extraData: O, baseFeePerGas: O, blockHash: O)

  datatype Payload<O> =
    Payload(core: PayloadCore<O>, transactions: seq<O>, withdrawals: seq<O>, blobGas: Option<BlobGas<O>>)

  datatype Header<O> =
    Header(core: PayloadCore<O>, transactionsRoot: Root, withdrawalsRoot: Root, blobGas: Option<BlobGas<O>>)

  const TRANSACTIONS_DEPTH: nat := 20
  const WITHDRAWALS_DEPTH: nat := 4

  predicate WellSized<O>(p: Payload<O>) {
    |p.transactions| <= Pow2(TRANSACTIONS_DEPTH) && |p.withdrawals| <= Pow2(WITHDRAWALS_DEPTH)
  }

  /** PayloadToPayloadHeader: lists are replaced by their roots. */
  function ToHeader<O>(h: Hasher<O>, p: Payload<O>): Header<O>
    requires WellSized(p)
  {
    Header(p.core, ListRoot(h, p.transactions, TRANSACTIONS_DEPTH),
           ListRoot(h, p.withdrawals, WITHDRAWALS_DEPTH), p.blobGas)
  }

  function CoreRoots<O>(h: Hasher<O>, c: PayloadCore<O>): seq<Root> {
    [h.leaf(c.parentHash), h.leaf(c.feeRecipient), h.leaf(c.stateRoot), h.leaf(c.receiptsRoot), h.leaf(c.logsBloom),
     h.leaf(c.prevRandao), h.leaf(c.blockNumber), h.leaf(c.gasLimit), h.leaf(c.gasUsed), h.leaf(c.timestamp),
     h.leaf(c.extraData), h.leaf(c.baseFeePerGas), h.leaf(c.blockHash)]
  }

  function BlobGasRoots<O>(h: Hasher<O>, b: Option<BlobGas<O>>): seq<Root> {
    if b.None? then [] else [h.leaf(b.value.blobGasUsed), h.leaf(b.value.excessBlobGas)]
  }

  /** 15 fields in Capella (depth 4), 17 from Deneb on (depth 5). */
  function ExecutionDepth<O>(b: Option<BlobGas<O>>): nat {
    if b.None? then 4 else 5
  }

  lemma Powers()
    ensures Pow2(3) == 8 && Pow2(4) == 16 && Pow2(5) == 32
  {
  }

  /** The chunks of a header container. */
  function HeaderChunks<O>(h: Hasher<O>, x: Header<O>): seq<Root> {
    CoreRoots(h, x.core) + [x.transactionsRoot, x.withdrawalsRoot] + BlobGasRoots(h, x.blobGas)
  }

  function HeaderRoot<O>(h: Hasher<O>, x: Header<O>): Root {
    Powers();
    Merkleize(h, HeaderChunks(h, x), ExecutionDepth(x.blobGas))
  }

  function PayloadRoot<O>(h: Hasher<O>, p: Payload<O>): Root
    requires WellSized(p)
  {
    Powers();
    Merkleize(h,
              CoreRoots(h, p.core) + [ListRoot(h, p.transactions, TRANSACTIONS_DEPTH),
                                     ListRoot(h, p.withdrawals, WITHDRAWALS_DEPTH)]
                + BlobGasRoots(h, p.blobGas),
              ExecutionDepth(p.blobGas))
  }

  /** A header is a summary of its payload: both have one root. */
  lemma HeaderSummarizesPayload<O>(h: Hasher<O>, p: Payload<O>)
    requires WellSized(p)
    ensures HeaderRoot(h, ToHeader(h, p)) == PayloadRoot(h, p)
  {
  }

  /** A header root, written out: the fields in order, hashed level by level. */
  lemma HeaderRootIs<O>(h: Hasher<O>, x: Header<O>, fields: seq<Root>)
    requires var c := x.core;
             fields == [
               h.leaf(c.parentHash), h.leaf(c.feeRecipient), h.leaf(c.stateRoot), h.leaf(c.receiptsRoot),
               h.leaf(c.logsBloom), h.leaf(c.prevRandao), h.leaf(c.blockNumber), h.leaf(c.gasLimit), h.leaf(c.gasUsed),
               h.leaf(c.timestamp), h.leaf(c.extraData), h.leaf(c.baseFeePerGas), h.leaf(c.blockHash),
               x.transactionsRoot, x.withdrawalsRoot]
    ensures Pow2(4) == 16 && Pow2(5) == 32
    ensures HeaderRoot(h, x) ==
            if x.blobGas.None? then RootByLevels(h, fields + Zeros(h, 1), 4)
            else RootByLevels(h, fields + [h.leaf(x.blobGas.value.blobGasUsed), h.leaf(x.blobGas.value.excessBlobGas)]
                                 + Zeros(h, 15), 5)
  {
    hide Merkleize, RootByLevels;
    Powers();
    assert HeaderChunks(h, x) == fields + BlobGasRoots(h, x.blobGas);
    MerkleizeIsLevels(h, HeaderChunks(h, x), ExecutionDepth(x.blobGas));
    assert x.blobGas.None? ==> fields + [] == fields;
  }

  lemma CoreRootsInjective<O(!new)>(h: Hasher<O>, x: PayloadCore<O>, y: PayloadCore<O>)
    requires Injective(h) && CoreRoots(h, x) == CoreRoots(h, y)
    ensures x == y
  {
    var xs, ys := CoreRoots(h, x), CoreRoots(h, y);
    assert forall i | 0 <= i < 13 :: xs[i] == ys[i];
    assert xs[0] == ys[0] && xs[1] == ys[1] && xs[2] == ys[2] && xs[3] == ys[3] && xs[4] == ys[4] && xs[5] == ys[5]
        && xs[6] == ys[6] && xs[7] == ys[7] && xs[8] == ys[8] && xs[9] == ys[9] && xs[10] == ys[10] && xs[11] == ys[11];
  }

  lemma ChunksInjective<O(!new)>(h: Hasher<O>, x: Header<O>, y: Header<O>)
    requires Injective(h) && x.blobGas.Some? == y.blobGas.Some? && HeaderChunks(h, x) == HeaderChunks(h, y)
    ensures x == y
  {
    var xs, ys := HeaderChunks(h, x), HeaderChunks(h, y);
    assert xs[..13] == CoreRoots(h, x.core) && ys[..13] == CoreRoots(h, y.core);
    assert xs[13] == x.transactionsRoot && xs[14] == x.withdrawalsRoot;
    assert ys[13] == y.transactionsRoot && ys[14] == y.withdrawalsRoot;
    assert xs[15..] == BlobGasRoots(h, x.blobGas) && ys[15..] == BlobGasRoots(h, y.blobGas);
    assert x.blobGas == y.blobGas by {
      assert x.blobGas.Some? ==> xs[15..][0] == ys[15..][0] && xs[15..][1] == ys[15..][1];
    }
    hide CoreRoots, BlobGasRoots;
    CoreRootsInjective(h, x.core, y.core);
  }

  /** With collision-free hashing, headers of one fork with one root are equal. */
  lemma HeaderRootInjective<O(!new)>(h: Hasher<O>, x: Header<O>, y: Header<O>)
    requires Injective(h) && x.blobGas.Some? == y.blobGas.Some? && HeaderRoot(h, x) == HeaderRoot(h, y)
    ensures x == y
  {
    Powers();
    MerkleizeInjective(h, HeaderChunks(h, x), HeaderChunks(h, y), ExecutionDepth(x.blobGas));
    hide HeaderChunks, Merkleize;
    ChunksInjective(h, x, y);
  }

  /** And a header pins the payload it was computed from: every field, all transactions, all withdrawals. */
  lemma HeaderPinsPayload<O(!new)>(h: Hasher<O>, p: Payload<O>, q: Payload<O>)
    requires Injective(h) && WellSized(p) && WellSized(q) && p.blobGas.Some? == q.blobGas.Some?
    requires HeaderRoot(h, ToHeader(h, p)) == HeaderRoot(h, ToHeader(h, q))
    ensures p == q
  {
    hide HeaderRoot, ListRoot, Pow2;
    HeaderRootInjective(h, ToHeader(h, p), ToHeader(h, q));
    ListRootInjective(h, p.transactions, q.transactions, TRANSACTIONS_DEPTH);
    ListRootInjective(h, p.withdrawals, q.withdrawals, WITHDRAWALS_DEPTH);
  }

  // ---------------------------------------------------------------- blocks

  /** A beacon block body; `execution` is a header in a blinded block and a payload in a full one.
      Commitments exist from Deneb on, execution requests from Electra on. */
  datatype Body<O, E> = Body(
    randaoReveal: O, eth1Data: O, graffiti: O, proposerSlashings: O, attesterSlashings: O, attestations: O, deposits: O,
    voluntaryExits: O, syncAggregate: O, execution: E, blsToExecutionChanges: O,
    commitments: Option<seq<O>>, requests: Option<O>)

  datatype Block<O, E> = Block(slot: O, proposerIndex: O, parentRoot: O, stateRoot: O, body: Body<O, E>)

  datatype SignedBlock<O, E> = SignedBlock(message: Block<O, E>, signature: O)

  datatype Blinded<O> = Blinded(version: Version, block: SignedBlock<O, Header<O>>)

  datatype BlobsBundle<O> = BlobsBundle(commitments: seq<O>, proofs: seq<O>, blobs: seq<O>)

  /** What getPayload delivers; Capella has no bundle. */
  datatype Response<O> = Response(version: Version, payload: Payload<O>, bundle: BlobsBundle<O>)

  datatype Contents<O> = Contents(block: SignedBlock<O, Payload<O>>, proofs: seq<O>, blobs: seq<O>)

  const COMMITMENTS_DEPTH: nat := 12

  function BodyRoots<O, E>(h: Hasher<O>, b: Body<O, E>, executionRoot: Root): seq<Root>
    requires b.commitments.Some? ==> |b.commitments.value| <= Pow2(COMMITMENTS_DEPTH)
  {
    [h.leaf(b.randaoReveal), h.leaf(b.eth1Data), h.leaf(b.graffiti), h.leaf(b.proposerSlashings),
     h.leaf(b.attesterSlashings),
     h.leaf(b.attestations), h.leaf(b.deposits), h.leaf(b.voluntaryExits), h.leaf(b.syncAggregate), executionRoot,
     h.leaf(b.blsToExecutionChanges)]
    + (if b.commitments.None? then [] else [ListRoot(h, b.commitments.value, COMMITMENTS_DEPTH)])
    + (if b.requests.None? then [] else [h.leaf(b.requests.value)])
  }

  /** The root of a block whose execution part has the given root: 11 to 13 body fields, 5 block fields. */
  function BlockRoot<O, E>(h: Hasher<O>, b: Block<O, E>, executionRoot: Root): Root
    requires b.body.commitments.Some? ==> |b.body.commitments.value| <= Pow2(COMMITMENTS_DEPTH)
  {
    Powers();
    var bodyRoot := Merkleize(h, BodyRoots(h, b.body, executionRoot), 4);
    Merkleize(h, [h.leaf(b.slot), h.leaf(b.proposerIndex), h.leaf(b.parentRoot), h.leaf(b.stateRoot), bodyRoot], 3)
  }

  predicate WellFormed<O>(bb: Blinded<O>) {
    var body := bb.block.message.body;
    && (body.commitments.Some? <==> HasBlobs(bb.version))
    && (body.requests.Some? <==> HasRequests(bb.version))
    && (body.commitments.Some? ==> |body.commitments.value| <= Pow2(COMMITMENTS_DEPTH))
  }

  lemma ListLimits()
    ensures Pow2(TRANSACTIONS_DEPTH) == 1048576 && Pow2(WITHDRAWALS_DEPTH) == 16 && Pow2(COMMITMENTS_DEPTH) == 4096
  {
    Powers();
    assert Pow2(6) == 64 && Pow2(7) == 128 && Pow2(8) == 256 && Pow2(9) == 512 && Pow2(10) == 1024;
    assert Pow2(11) == 2048 && Pow2(12) == 4096 && Pow2(13) == 8192 && Pow2(14) == 16384 && Pow2(15) == 32768;
    assert Pow2(16) == 65536 && Pow2(17) == 131072 && Pow2(18) == 262144 && Pow2(19) == 524288;
  }

  /** Which blocks and payloads this is about, in the numbers of the standard: commitments from Deneb on and
      execution requests from Electra on, and lists within their limits. */
  lemma ShapesAre<O>(bb: Blinded<O>, p: Payload<O>)
    ensures WellSized(p) <==> |p.transactions| <= 1048576 && |p.withdrawals| <= 16
    ensures var body := bb.block.message.body;
            WellFormed(bb) <==>
              match bb.version
              case Earlier => body.commitments.None? && body.requests.None?
              case Capella => body.commitments.None? && body.requests.None?
              case Deneb => body.commitments.Some? && |body.commitments.value| <= 4096 && body.requests.None?
              case Electra => body.commitments.Some? && |body.commitments.value| <= 4096 && body.requests.Some?
              case Fulu => body.commitments.Some? && |body.commitments.value| <= 4096 && body.requests.Some?
  {
    ListLimits();
    hide Pow2;
  }

  function BlindedRoot<O>(h: Hasher<O>, bb: Blinded<O>): Root
    requires WellFormed(bb)
  {
    BlockRoot(h, bb.block.message, HeaderRoot(h, bb.block.message.body.execution))
  }

  predicate FullSized<O>(c: Contents<O>) {
    var body := c.block.message.body;
    WellSized(body.execution) && (body.commitments.Some? ==> |body.commitments.value| <= Pow2(COMMITMENTS_DEPTH))
  }

  function FullRoot<O>(h: Hasher<O>, c: Contents<O>): Root
    requires FullSized(c)
  {
    BlockRoot(h, c.block.message, PayloadRoot(h, c.block.message.body.execution))
  }

  // ---------------------------------------------------------------- the contents check

  datatype Error = VersionMismatch | UnsupportedPayload | HeaderMismatch | BlobMismatch | InvalidVersion

  /** The loop over the commitments, as far as its first mismatch. */
  predicate SameCommitments<O(==)>(a: seq<O>, b: seq<O>) {
    |a| == |b| && forall i | 0 <= i < |a| :: a[i] == b[i]
  }

  /** EqBlindedBlockContentsToBlockContents. */
  function CheckContents<O(==)>(h: Hasher<O>, bb: Blinded<O>, r: Response<O>): Option<Error>
    requires WellFormed(bb) && WellSized(r.payload)
  {
    var body := bb.block.message.body;
    if bb.version != r.version then Some(VersionMismatch)
    else if bb.version == Earlier then Some(UnsupportedPayload)
    else if HeaderRoot(h, body.execution) != HeaderRoot(h, ToHeader(h, r.payload)) then Some(HeaderMismatch)
    else if HasBlobs(bb.version) && !SameCommitments(body.commitments.value, r.bundle.commitments)
    then Some(BlobMismatch)
    else None
  }

  /** When the blinded header was computed from payload `p`: the check passes exactly for that very payload,
      of the block's supported fork and, from Deneb on, with the block's commitments in order; otherwise the
      first of these that fails names the error. */
  lemma CheckPassesIff<O(!new)>(h: Hasher<O>, bb: Blinded<O>, p: Payload<O>, r: Response<O>)
    requires Injective(h) && WellFormed(bb) && WellSized(p) && WellSized(r.payload)
    requires bb.block.message.body.execution == ToHeader(h, p)
    requires (p.blobGas.Some? <==> HasBlobs(bb.version)) && (r.payload.blobGas.Some? <==> HasBlobs(r.version))
    ensures CheckContents(h, bb, r) ==
            if r.version != bb.version then Some(VersionMismatch)
            else if r.version == Earlier then Some(UnsupportedPayload)
            else if r.payload != p then Some(HeaderMismatch)
            else if r.version != Capella && bb.block.message.body.commitments != Some(r.bundle.commitments)
            then Some(BlobMismatch)
            else None
  {
    hide HeaderRoot, ToHeader, Pow2;
    if r.version == bb.version && HeaderRoot(h, ToHeader(h, p)) == HeaderRoot(h, ToHeader(h, r.payload)) {
      HeaderPinsPayload(h, p, r.payload);
    }
    if HasBlobs(bb.version) {
      var a, b := bb.block.message.body.commitments.value, r.bundle.commitments;
      assert SameCommitments(a, b) <==> a == b;
    }
  }

  // ---------------------------------------------------------------- unblinding

  function CapellaUnblind<O>(b: SignedBlock<O, Header<O>>, p: Payload<O>): Contents<O> {
    var m := b.message;
    Contents(
      SignedBlock(
        Block(m.slot, m.proposerIndex, m.parentRoot, m.stateRoot,
              Body(m.body.randaoReveal, m.body.eth1Data, m.body.graffiti, m.body.proposerSlashings,
                   m.body.attesterSlashings,
                   m.body.attestations, m.body.deposits, m.body.voluntaryExits, m.body.syncAggregate, p,
                   m.body.blsToExecutionChanges, None, None)),
        b.signature),
      [], [])
  }

  function DenebUnblind<O>(b: SignedBlock<O, Header<O>>, p: Payload<O>, bundle: BlobsBundle<O>): Contents<O> {
    var m := b.message;
    Contents(
      SignedBlock(
        Block(m.slot, m.proposerIndex, m.parentRoot, m.stateRoot,
              Body(m.body.randaoReveal, m.body.eth1Data, m.body.graffiti, m.body.proposerSlashings,
                   m.body.attesterSlashings,
                   m.body.attestations, m.body.deposits, m.body.voluntaryExits, m.body.syncAggregate, p,
                   m.body.blsToExecutionChanges, m.body.commitments, None)),
        b.signature),
      bundle.proofs, bundle.blobs)
  }

  /** Electra and Fulu blocks have the same fields. */
  function ElectraUnblind<O>(b: SignedBlock<O, Header<O>>, p: Payload<O>, bundle: BlobsBundle<O>): Contents<O> {
    var m := b.message;
    Contents(
      SignedBlock(
        Block(m.slot, m.proposerIndex, m.parentRoot, m.stateRoot,
              Body(m.body.randaoReveal, m.body.eth1Data, m.body.graffiti, m.body.proposerSlashings,
                   m.body.attesterSlashings,
                   m.body.attestations, m.body.deposits, m.body.voluntaryExits, m.body.syncAggregate, p,
                   m.body.blsToExecutionChanges, m.body.commitments, m.body.requests)),
        b.signature),
      bundle.proofs, bundle.blobs)
  }

  /** SignedBlindedBeaconBlockToBeaconBlock; the payload must be of the block's version. */
  function Unblind<O>(bb: Blinded<O>, r: Response<O>): Result<Contents<O>, Error>
    requires WellFormed(bb) && bb.version == r.version
  {
    match bb.version
    case Earlier => Err(InvalidVersion)
    case Capella => Ok(CapellaUnblind(bb.block, r.payload))
    case Deneb =>
      if |bb.block.message.body.commitments.value| != |r.bundle.blobs| then Err(BlobMismatch)
      else Ok(DenebUnblind(bb.block, r.payload, r.bundle))
    case Electra =>
      if |bb.block.message.body.commitments.value| != |r.bundle.blobs| then Err(BlobMismatch)
      else Ok(ElectraUnblind(bb.block, r.payload, r.bundle))
    case Fulu =>
      if |bb.block.message.body.commitments.value| != |r.bundle.blobs| then Err(BlobMismatch)
      else Ok(ElectraUnblind(bb.block, r.payload, r.bundle))
  }

  /** Unblinding succeeds exactly for a supported fork with, from Deneb on, one blob per commitment. */
  lemma UnblindOkIff<O>(bb: Blinded<O>, r: Response<O>)
    requires WellFormed(bb) && bb.version == r.version
    ensures Unblind(bb, r).Err? <==>
              bb.version == Earlier
              || (bb.version != Capella && |bb.block.message.body.commitments.value| != |r.bundle.blobs|)
    ensures Unblind(bb, r) == Err(InvalidVersion) <==> bb.version == Earlier
  {
  }

  // ---------------------------------------------------------------- the root survives

  /** The two bodies agree in every field but the execution part ... */
  ghost predicate SameBody<O, E, F>(a: Body<O, E>, b: Body<O, F>) {
    && a.randaoReveal == b.randaoReveal && a.eth1Data == b.eth1Data && a.graffiti == b.graffiti
    && a.proposerSlashings == b.proposerSlashings && a.attesterSlashings == b.attesterSlashings
    && a.attestations == b.attestations && a.deposits == b.deposits && a.voluntaryExits == b.voluntaryExits
    && a.syncAggregate == b.syncAggregate && a.blsToExecutionChanges == b.blsToExecutionChanges
    && a.commitments == b.commitments && a.requests == b.requests
  }

  /** ... and so do the two blocks. */
  ghost predicate SameButExecution<O, E, F>(x: Block<O, E>, y: Block<O, F>) {
    && x.slot == y.slot && x.proposerIndex == y.proposerIndex
    && x.parentRoot == y.parentRoot && x.stateRoot == y.stateRoot && SameBody(x.body, y.body)
  }

  lemma SameFieldsSameRoot<O, E, F>(h: Hasher<O>, x: Block<O, E>, y: Block<O, F>, executionRoot: Root)
    requires SameButExecution(x, y)
    requires x.body.commitments.Some? ==> |x.body.commitments.value| <= Pow2(COMMITMENTS_DEPTH)
    ensures BlockRoot(h, x, executionRoot) == BlockRoot(h, y, executionRoot)
  {
    hide Merkleize, ListRoot, Pow2;
  }

  /** Unblinding changes nothing but the execution part. */
  lemma UnblindKeepsTheRest<O>(h: Hasher<O>, bb: Blinded<O>, r: Response<O>, executionRoot: Root)
    requires WellFormed(bb) && bb.version == r.version && Unblind(bb, r).Ok?
    ensures var full := Unblind(bb, r).value;
            && full.block.message.body.execution == r.payload && full.block.signature == bb.block.signature
            && SameButExecution(full.block.message, bb.block.message)
            && BlockRoot(h, full.block.message, executionRoot) == BlockRoot(h, bb.block.message, executionRoot)
  {
    hide Pow2, BlockRoot;
    SameFieldsSameRoot(h, Unblind(bb, r).value.block.message, bb.block.message, executionRoot);
  }

  /** If the contents check and the unblinding succeed, the full block has the blinded block's root and
      carries its signature, so the proposer's signature is valid for it; from Deneb on there is one blob
      per commitment and the commitments are the bundle's, in order. */
  lemma UnblindedBlockKeepsRoot<O>(h: Hasher<O>, bb: Blinded<O>, r: Response<O>)
    requires WellFormed(bb) && WellSized(r.payload)
    requires CheckContents(h, bb, r).None? && Unblind(bb, r).Ok?
    ensures var full := Unblind(bb, r).value;
            && FullSized(full) && FullRoot(h, full) == BlindedRoot(h, bb) && full.block.signature == bb.block.signature
            && full.block.message.body.execution == r.payload
            && (HasBlobs(bb.version) ==>
                  && full.block.message.body.commitments == Some(r.bundle.commitments)
                  && |full.blobs| == |r.bundle.commitments|
                  && full.blobs == r.bundle.blobs && full.proofs == r.bundle.proofs)
  {
    hide Merkleize, HeaderRoot, PayloadRoot, BlockRoot, ToHeader, Pow2;
    UnblindKeepsTheRest(h, bb, r, HeaderRoot(h, bb.block.message.body.execution));
    HeaderSummarizesPayload(h, r.payload);
    if HasBlobs(bb.version) {
      assert bb.block.message.body.commitments.value == r.bundle.commitments;
    }
  }

  /** With a collision-free hash the block root pins the execution root. */
  lemma BlockRootPinsExecution<O, E>(h: Hasher<O>, b: Block<O, E>, x: Root, y: Root)
    requires CollisionFree(h)
    requires b.body.commitments.Some? ==> |b.body.commitments.value| <= Pow2(COMMITMENTS_DEPTH)
    requires BlockRoot(h, b, x) == BlockRoot(h, b, y)
    ensures x == y
  {
    hide Merkleize, ListRoot;
    Powers();
    var xs, ys := BodyRoots(h, b.body, x), BodyRoots(h, b.body, y);
    var bodyX, bodyY := Merkleize(h, xs, 4), Merkleize(h, ys, 4);
    var fx := [h.leaf(b.slot), h.leaf(b.proposerIndex), h.leaf(b.parentRoot), h.leaf(b.stateRoot), bodyX];
    var fy := [h.leaf(b.slot), h.leaf(b.proposerIndex), h.leaf(b.parentRoot), h.leaf(b.stateRoot), bodyY];
    MerkleizeInjective(h, fx, fy, 3);
    assert bodyX == fx[4] == fy[4] == bodyY;
    MerkleizeInjective(h, xs, ys, 4);
    assert x == xs[9] == ys[9] == y;
  }

  lemma BodyRootsInjective<O(!new), E, F>(h: Hasher<O>, x: Body<O, E>, y: Body<O, F>, ex: Root, ey: Root)
    requires Injective(h) && x.commitments.Some? == y.commitments.Some? && x.requests.Some? == y.requests.Some?
    requires x.commitments.Some? ==>
               |x.commitments.value| <= Pow2(COMMITMENTS_DEPTH) && |y.commitments.value| <= Pow2(COMMITMENTS_DEPTH)
    requires BodyRoots(h, x, ex) == BodyRoots(h, y, ey)
    ensures SameBody(x, y) && ex == ey
  {
    hide ListRoot, Pow2;
    var xs, ys := BodyRoots(h, x, ex), BodyRoots(h, y, ey);
    assert xs[0] == ys[0] && xs[1] == ys[1] && xs[2] == ys[2] && xs[3] == ys[3] && xs[4] == ys[4] && xs[5] == ys[5]
        && xs[6] == ys[6] && xs[7] == ys[7] && xs[8] == ys[8] && xs[9] == ys[9] && xs[10] == ys[10];
    if x.commitments.Some? {
      assert xs[11] == ys[11];
      ListRootInjective(h, x.commitments.value, y.commitments.value, COMMITMENTS_DEPTH);
    }
    if x.requests.Some? {
      assert xs[|xs| - 1] == ys[|ys| - 1];
    }
  }

  /** With collision-free hashing a block root pins every field of the block. */
  lemma BlockRootInjective<O(!new), E, F>(h: Hasher<O>, x: Block<O, E>, y: Block<O, F>, ex: Root, ey: Root)
    requires Injective(h)
    requires x.body.commitments.Some? == y.body.commitments.Some? && x.body.requests.Some? == y.body.requests.Some?
    requires x.body.commitments.Some? ==>
               && |x.body.commitments.value| <= Pow2(COMMITMENTS_DEPTH)
               && |y.body.commitments.value| <= Pow2(COMMITMENTS_DEPTH)
    requires BlockRoot(h, x, ex) == BlockRoot(h, y, ey)
    ensures SameButExecution(x, y) && ex == ey
  {
    hide Merkleize, ListRoot, SameBody;
    Powers();
    var xs, ys := BodyRoots(h, x.body, ex), BodyRoots(h, y.body, ey);
    var bodyX, bodyY := Merkleize(h, xs, 4), Merkleize(h, ys, 4);
    var fx := [h.leaf(x.slot), h.leaf(x.proposerIndex), h.leaf(x.parentRoot), h.leaf(x.stateRoot), bodyX];
    var fy := [h.leaf(y.slot), h.leaf(y.proposerIndex), h.leaf(y.parentRoot), h.leaf(y.stateRoot), bodyY];
    MerkleizeInjective(h, fx, fy, 3);
    assert fx[0] == fy[0] && fx[1] == fy[1] && fx[2] == fy[2] && fx[3] == fy[3] && fx[4] == fy[4];
    MerkleizeInjective(h, xs, ys, 4);
    BodyRootsInjective(h, x.body, y.body, ex, ey);
  }

  /** So the proposer's signature is over one full block only: full blocks of one fork with one root are equal. */
  lemma FullRootInjective<O(!new)>(h: Hasher<O>, x: Contents<O>, y: Contents<O>)
    requires Injective(h) && FullSized(x) && FullSized(y)
    requires var a, b := x.block.message.body, y.block.message.body;
             && a.commitments.Some? == b.commitments.Some? && a.requests.Some? == b.requests.Some?
             && a.execution.blobGas.Some? == b.execution.blobGas.Some?
    requires FullRoot(h, x) == FullRoot(h, y)
    ensures x.block.message == y.block.message
  {
    hide BlockRoot, PayloadRoot, HeaderRoot, ToHeader, Pow2;
    var p, q := x.block.message.body.execution, y.block.message.body.execution;
    BlockRootInjective(h, x.block.message, y.block.message, PayloadRoot(h, p), PayloadRoot(h, q));
    HeaderSummarizesPayload(h, p);
    HeaderSummarizesPayload(h, q);
    HeaderPinsPayload(h, p, q);
  }

  /** The contents check rejects no more than it must: with a collision-free hash, a block that unblinds
      passes the header comparison exactly when the full block keeps the blinded block's root. */
  lemma HeaderCheckIffRootKept<O>(h: Hasher<O>, bb: Blinded<O>, r: Response<O>)
    requires CollisionFree(h) && WellFormed(bb) && WellSized(r.payload) && bb.version == r.version && Unblind(bb, r).Ok?
    ensures FullSized(Unblind(bb, r).value)
    ensures CheckContents(h, bb, r) != Some(HeaderMismatch) <==> FullRoot(h, Unblind(bb, r).value) == BlindedRoot(h, bb)
  {
    hide Merkleize, HeaderRoot, PayloadRoot, BlockRoot, ToHeader, Pow2;
    var x, y := HeaderRoot(h, bb.block.message.body.execution), PayloadRoot(h, r.payload);
    HeaderSummarizesPayload(h, r.payload);
    UnblindKeepsTheRest(h, bb, r, y);
    if FullRoot(h, Unblind(bb, r).value) == BlindedRoot(h, bb) {
      BlockRootPinsExecution(h, bb.block.message, x, y);
    }
  }
}
