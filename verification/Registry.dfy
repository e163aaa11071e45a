/** The Vouch registry's enumeration of validator keys from the NodeDeposit contract: each node's list is
    walked by index in batches, the walks run in a worker pool, and the union is returned sorted.
 */
module Registry {
  import opened Common
  import opened Strings

  const BATCH_SIZE: nat := 64

  /** What the contract answers for one index: a key, an empty result, a revert, or any other error. */
  datatype Answer = Key(bytes: seq<byte>) | Blank | Reverted | Broken

  /** One node's list, and the batch requests that fail as a whole. Indices past the list revert. */
  datatype Node = Node(answers: seq<Answer>, badBatches: set<nat>) {
    function Get(i: nat): Answer {
      if i < |answers| then answers[i] else Reverted
    }
  }

  // ---------------------------------------------------------------- how a key is written

  function HexDigit(d: int): char
    requires 0 <= d < 16
  {
    if d < 10 then '0' + d as char else 'a' + (d - 10) as char
  }

  function Hex(bytes: seq<byte>): (s: string)
    ensures |s| == 2 * |bytes|
  {
    if bytes == [] then "" else [HexDigit(bytes[0] / 16), HexDigit(bytes[0] % 16)] + Hex(bytes[1..])
  }

  function Render(bytes: seq<byte>): string {
    "0x" + Hex(bytes)
  }

  lemma {:induction false} HexInjective(a: seq<byte>, b: seq<byte>)
    requires Hex(a) == Hex(b)
    ensures a == b
  {
    if a == [] {
      assert |b| == 0;
    } else {
      assert |Hex(b)| == |Hex(a)| > 0;
      var x, y := Hex(a), Hex(b);
      assert x[0] == HexDigit(a[0] / 16) && x[1] == HexDigit(a[0] % 16);
      assert y[0] == HexDigit(b[0] / 16) && y[1] == HexDigit(b[0] % 16);
      assert a[0] == b[0];
      assert x[2..] == Hex(a[1..]) && y[2..] == Hex(b[1..]);
      HexInjective(a[1..], b[1..]);
      assert a == [a[0]] + a[1..] && b == [b[0]] + b[1..];
    }
  }

  lemma {:induction false} HexIsLower(bytes: seq<byte>, i: nat)
    requires i < |Hex(bytes)|
    ensures '0' <= Hex(bytes)[i] <= '9' || 'a' <= Hex(bytes)[i] <= 'f'
  {
    if i >= 2 {
      HexIsLower(bytes[1..], i - 2);
    }
  }

  /** Distinct keys are written differently, and every key is written in lower case already. */
  lemma RenderIsCanonical(a: seq<byte>, b: seq<byte>)
    ensures Render(a) == Render(b) ==> a == b
    ensures ToLower(Render(a)) == Render(a)
  {
    if Render(a) == Render(b) {
      assert Render(a)[2..] == Hex(a) && Render(b)[2..] == Hex(b);
      HexInjective(a, b);
    }
    forall i | 0 <= i < |Render(a)|
      ensures LowerChar(Render(a)[i]) == Render(a)[i]
    {
      if i >= 2 {
        HexIsLower(a, i - 2);
        assert Render(a)[i] == Hex(a)[i - 2];
      }
    }
  }

  /** The value of a hexadecimal digit, read off the character. */
  function DigitValue(c: char): Option<int> {
    if '0' <= c <= '9' then Some(c as int - '0' as int)
    else if 'a' <= c <= 'f' then Some(c as int - 'a' as int + 10)
    else None
  }

  /** The two characters are the hexadecimal digits of the byte, the high one first. */
  ghost predicate Spells(high: char, low: char, b: byte) {
    DigitValue(high).Some? && DigitValue(low).Some? && 16 * DigitValue(high).value + DigitValue(low).value == b
  }

  lemma HexDigitsSpell(b: byte)
    ensures Spells(HexDigit(b / 16), HexDigit(b % 16), b)
  {
  }

  lemma {:induction false} HexSpells(bytes: seq<byte>, k: nat)
    requires k < |bytes|
    ensures Spells(Hex(bytes)[2 * k], Hex(bytes)[2 * k + 1], bytes[k])
  {
    HexDigitsSpell(bytes[0]);
    hide Spells, HexDigit;
    if k > 0 {
      var rest := Hex(bytes[1..]);
      HexSpells(bytes[1..], k - 1);
      assert Hex(bytes)[2 * k] == rest[2 * (k - 1)] && Hex(bytes)[2 * k + 1] == rest[2 * (k - 1) + 1];
    }
  }

  /** A key is written as 0x and two hexadecimal digits per byte, the high one first. */
  lemma RenderSpells(bytes: seq<byte>, k: nat)
    ensures |Render(bytes)| == 2 + 2 * |bytes| && Render(bytes)[0] == '0' && Render(bytes)[1] == 'x'
    ensures k < |bytes| ==> Spells(Render(bytes)[2 + 2 * k], Render(bytes)[3 + 2 * k], bytes[k])
  {
    if k < |bytes| {
      HexSpells(bytes, k);
      hide Hex, Spells;
      assert Render(bytes)[2 + 2 * k] == Hex(bytes)[2 * k] && Render(bytes)[3 + 2 * k] == Hex(bytes)[2 * k + 1];
    }
  }

  // ---------------------------------------------------------------- one node's walk

  /** Keys read until the walk ends, and whether it ended without an error. */
  datatype Walk = Walk(keys: seq<string>, ok: bool)

  predicate BatchFails(node: Node, i: nat) {
    i % BATCH_SIZE == 0 && i / BATCH_SIZE in node.badBatches
  }

  /** The walk index by index: an empty key ends it like a revert does. */
  function WalkFrom(node: Node, i: nat): Walk
    decreases Max(0, |node.answers| - i)
  {
    if BatchFails(node, i) then Walk([], false)
    else
      match node.Get(i)
      case Broken => Walk([], false)
      case Blank => Walk([], true)
      case Reverted => Walk([], true)
      case Key(bytes) =>
        if bytes == [] then Walk([], true) else
          var rest := WalkFrom(node, i + 1);
          Walk([Render(bytes)] + rest.keys, rest.ok)
  }

  function Walked(node: Node): seq<string> {
    WalkFrom(node, 0).keys
  }

  /** Every key of the list, read or not. */
  ghost predicate Lists(node: Node, key: string) {
    exists i | 0 <= i < |node.answers| :: ListsAt(node, i, key)
  }

  ghost predicate ListsAt(node: Node, i: nat, key: string) {
    node.Get(i).Key? && node.Get(i).bytes != [] && key == Render(node.Get(i).bytes)
  }

  /** The walk reads the list from the front: its k-th key is the list's k-th answer. */
  lemma {:induction false} WalkReadsList(node: Node, i: nat, k: nat)
    requires k < |WalkFrom(node, i).keys|
    ensures i + k < |node.answers| && ListsAt(node, i + k, WalkFrom(node, i).keys[k])
    decreases Max(0, |node.answers| - i)
  {
    hide Render, BatchFails;
    if k > 0 {
      WalkReadsList(node, i + 1, k - 1);
      assert WalkFrom(node, i).keys[k] == WalkFrom(node, i + 1).keys[k - 1];
    }
  }

  /** Where a walk ends: a batch that fails, or an answer that is not a non-empty key. */
  predicate EndsAt(node: Node, i: nat) {
    BatchFails(node, i) || !node.Get(i).Key? || node.Get(i).bytes == []
  }

  /** The walk reads exactly up to the first index where it has to end, and fails exactly when a failed batch
      or an error other than a revert ends it. */
  lemma {:induction false} WalkEndsAtFirst(node: Node, i: nat)
    ensures var n := i + |WalkFrom(node, i).keys|;
            && EndsAt(node, n) && (forall j | i <= j < n :: !EndsAt(node, j))
            && (!WalkFrom(node, i).ok <==> (n % 64 == 0 && n / 64 in node.badBatches) || node.Get(n) == Broken)
    decreases Max(0, |node.answers| - i)
  {
    if !EndsAt(node, i) {
      WalkEndsAtFirst(node, i + 1);
      hide EndsAt, Render;
    }
  }

  /** Nothing up to and including this index ends the walk. */
  ghost predicate Reached(node: Node, j: nat) {
    forall k | 0 <= k <= j :: !EndsAt(node, k)
  }

  lemma ReachedIff(node: Node, j: nat)
    ensures Reached(node, j) <==> j < |Walked(node)|
  {
    WalkEndsAtFirst(node, 0);
    hide EndsAt, WalkFrom;
  }

  /** A list of keys without a blank, an error or a failed batch is walked to its end. */
  lemma {:induction false} CleanWalkIsComplete(node: Node, i: nat)
    requires i <= |node.answers| && node.badBatches == {}
    requires forall j | 0 <= j < |node.answers| :: node.answers[j].Key? && node.answers[j].bytes != []
    ensures WalkFrom(node, i).ok && |WalkFrom(node, i).keys| == |node.answers| - i
    decreases |node.answers| - i
  {
    hide Render;
    if i < |node.answers| {
      CleanWalkIsComplete(node, i + 1);
    }
  }

  // ---------------------------------------------------------------- the walk in batches

  ghost predicate Progress(node: Node, i: nat, done: seq<string>) {
    && |done| == i && Walked(node) == done + WalkFrom(node, i).keys
    && WalkFrom(node, 0).ok == WalkFrom(node, i).ok
  }

  lemma WalkUnfold(node: Node, i: nat)
    requires !EndsAt(node, i)
    ensures WalkFrom(node, i).keys == [Render(node.Get(i).bytes)] + WalkFrom(node, i + 1).keys
    ensures WalkFrom(node, i).ok == WalkFrom(node, i + 1).ok
  {
  }

  lemma StepProgress(node: Node, i: nat, done: seq<string>, key: string)
    requires Progress(node, i, done) && !EndsAt(node, i) && key == Render(node.Get(i).bytes)
    ensures Progress(node, i + 1, done + [key])
  {
    hide WalkFrom, BatchFails, Render;
    WalkUnfold(node, i);
    assert done + ([key] + WalkFrom(node, i + 1).keys) == done + [key] + WalkFrom(node, i + 1).keys;
  }

  lemma ElementsAppend(xs: seq<string>, x: string)
    ensures Elements(xs + [x]) == Elements(xs) + {x}
  {
  }

  lemma EndProgress(node: Node, i: nat, done: seq<string>)
    requires Progress(node, i, done) && EndsAt(node, i)
    ensures Walked(node) == done && (WalkFrom(node, 0).ok <==> !BatchFails(node, i) && node.Get(i) != Broken)
  {
  }

  lemma InBatch(node: Node, batch: nat, j: nat)
    requires j < BATCH_SIZE
    ensures BatchFails(node, BATCH_SIZE * batch + j) <==> j == 0 && batch in node.badBatches
    ensures var i := BATCH_SIZE * batch + j;
            EndsAt(node, i) <==> BatchFails(node, i) || !node.Get(i).Key? || node.Get(i).bytes == []
    ensures (BATCH_SIZE * batch + j) / BATCH_SIZE == batch
  {
  }

  /** The set the workers share. */
  class KeySet {
    var keys: set<string>

    /** walkNodePubkeys: a loop over batches. It reads what the index-by-index walk reads, and sends one
        request for every started block of 64 keys, plus the one that finds the end. */
    method WalkNodePubkeys(node: Node) returns (ok: bool, requests: nat)
      modifies this
      ensures ok == WalkFrom(node, 0).ok && keys == old(keys) + Elements(Walked(node))
      ensures requests == |Walked(node)| / BATCH_SIZE + 1
    {
      requests := 0;
      ghost var done: seq<string> := [];
      assert Progress(node, 0, []) && Elements([]) == {};
      hide WalkFrom, Walked, Progress, Elements, EndsAt, BatchFails;
      while true
        invariant BATCH_SIZE * requests <= |node.answers|
        invariant Progress(node, BATCH_SIZE * requests, done) && keys == old(keys) + Elements(done)
        decreases |node.answers| - BATCH_SIZE * requests
      {
        InBatch(node, requests, 0);
        if requests in node.badBatches {
          EndsInBatch(node, requests, 0, done);
          return false, requests + 1;
        }
        var ended;
        ended, ok, done := ReadBatch(node, requests, old(keys), done);
        requests := requests + 1;
        if ended {
          return ok, requests;
        }
      }
    }

    /** The loop over the elements of one batch: it ends the walk, or reads 64 keys. */
    method ReadBatch(node: Node, batch: nat, ghost before: set<string>, ghost read: seq<string>)
      returns (ended: bool, ok: bool, ghost done: seq<string>)
      requires Progress(node, BATCH_SIZE * batch, read) && keys == before + Elements(read)
      requires batch !in node.badBatches && BATCH_SIZE * batch <= |node.answers|
      modifies this
      ensures keys == before + Elements(done)
      ensures ended ==> Walked(node) == done && ok == WalkFrom(node, 0).ok && |done| / BATCH_SIZE == batch
      ensures !ended ==> Progress(node, BATCH_SIZE * (batch + 1), done) && BATCH_SIZE * (batch + 1) <= |node.answers|
    {
      hide WalkFrom, Walked, Progress, Elements, EndsAt, BatchFails, Render;
      done := read;
      var start := BATCH_SIZE * batch;
      var j := 0;
      while j < BATCH_SIZE
        invariant 0 <= j <= BATCH_SIZE && start + j <= |node.answers|
        invariant Progress(node, start + j, done) && keys == before + Elements(done)
      {
        InBatch(node, batch, j);
        var answer := node.Get(start + j);
        if !answer.Key? || answer.bytes == [] {
          EndsInBatch(node, batch, j, done);
          return true, answer != Broken, done;
        }
        var key := Render(answer.bytes);
        StepProgress(node, start + j, done, key);
        ElementsAppend(done, key);
        done := done + [key];
        keys := keys + {key};
        j := j + 1;
      }
      return false, true, done;
    }
  }

  /** A walk that ends at this index of this batch. */
  lemma EndsInBatch(node: Node, batch: nat, j: nat, done: seq<string>)
    requires j < BATCH_SIZE && Progress(node, BATCH_SIZE * batch + j, done) && EndsAt(node, BATCH_SIZE * batch + j)
    ensures Walked(node) == done && |done| / BATCH_SIZE == batch
    ensures WalkFrom(node, 0).ok <==>
              !(j == 0 && batch in node.badBatches) && node.Get(BATCH_SIZE * batch + j) != Broken
  {
    InBatch(node, batch, j);
    EndProgress(node, BATCH_SIZE * batch + j, done);
    ReadLength(node, BATCH_SIZE * batch + j, done);
    hide WalkFrom, Progress, EndsAt, BatchFails;
  }

  lemma ReadLength(node: Node, i: nat, done: seq<string>)
    requires Progress(node, i, done)
    ensures |done| == i
  {
  }
}
