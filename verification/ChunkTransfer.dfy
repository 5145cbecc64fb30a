/**
 The chunked KV transfer from a prefill worker to a decode worker: the ranges that are
 announced before the prompt runs, those that the running prompt sends, and what the
 receiver puts together from them.
 */
module ChunkTransfer {
  import opened Basics
  import KvQuantizer

  datatype Range = Range(start: nat, end: nat)

  // ----- the size of a chunk

  datatype TransferMode = FullTransfer | PartialTransfer | QuantizedTransfer | Int8Transfer

  /** What a token's KV weighs on the wire. */
  function BytesPerToken(elements: nat, mode: TransferMode): nat {
    Max(1, match mode
           case Int8Transfer => elements + (elements + 63) / 64 * 4
           case QuantizedTransfer => (elements + 1) / 2 + (elements + 63) / 64 * 4
           case FullTransfer => elements * 2
           case PartialTransfer => elements * 2)
  }

  /** A page-aligned chunk whose payload is near the target, within the requested size. */
  function TransferChunkSize(requested: int, blockSize: int, targetBytes: int, bytesPerToken: nat): Result<int>
    requires bytesPerToken > 0
  {
    if requested <= 0 || blockSize <= 0 || targetBytes <= 0 then Err(ValueError)
    else
      var target := Max(blockSize, targetBytes / bytesPerToken);
      var rounded := Max(blockSize, (target + blockSize / 2) / blockSize * blockSize);
      var configured := Max(blockSize, Max(blockSize, requested) / blockSize * blockSize);
      Ok(Min(configured, rounded))
  }

  /**
   Any positive limits give a size. It is whole pages; never more than was asked for,
   unless that is less than a page; and over the target by half a page at most, unless
   the target is less than a page. No more pages would keep to both.
   */
  lemma ChunkIsWholePages(requested: int, blockSize: int, targetBytes: int, bytesPerToken: nat)
    requires bytesPerToken > 0
    ensures var r := TransferChunkSize(requested, blockSize, targetBytes, bytesPerToken);
            && (r.Ok? <==> requested > 0 && blockSize > 0 && targetBytes > 0)
            && (r.Err? ==> r.error == ValueError)
    ensures var r := TransferChunkSize(requested, blockSize, targetBytes, bytesPerToken);
            r.Ok? ==>
              forall pages: nat :: pages * blockSize <= Min(Max(blockSize, requested), Max(blockSize, targetBytes / bytesPerToken) + blockSize / 2) ==>
                pages * blockSize <= r.value
    ensures var r := TransferChunkSize(requested, blockSize, targetBytes, bytesPerToken);
            r.Ok? ==>
              && blockSize > 0 && r.value % blockSize == 0
              && blockSize <= r.value <= Max(blockSize, requested)
              && r.value <= Max(blockSize, targetBytes / bytesPerToken) + blockSize / 2
  {
    if requested > 0 && blockSize > 0 && targetBytes > 0 {
      var target := Max(blockSize, targetBytes / bytesPerToken);
      var x, y := (target + blockSize / 2) / blockSize, Max(blockSize, requested) / blockSize;
      Multiple(x, blockSize);
      Multiple(y, blockSize);
      Multiple(1, blockSize);
      QuotientBelow(target + blockSize / 2, blockSize);
      QuotientBelow(Max(blockSize, requested), blockSize);
      forall pages: nat | pages * blockSize <= Min(Max(blockSize, requested), target + blockSize / 2)
        ensures pages * blockSize <= TransferChunkSize(requested, blockSize, targetBytes, bytesPerToken).value
      {
        MostPages(pages, target + blockSize / 2, blockSize);
        MostPages(pages, Max(blockSize, requested), blockSize);
      }
    }
  }

  lemma MostPages(pages: nat, n: nat, blockSize: nat)
    requires blockSize > 0 && pages * blockSize <= n
    ensures pages * blockSize <= n / blockSize * blockSize
  {
    AtMostQuotient(pages, n, blockSize);
    MulMonotone(pages, n / blockSize, blockSize);
  }

  /** A token that weighs less makes no smaller chunk. */
  lemma LighterTokensLongerChunks(requested: int, blockSize: int, targetBytes: int, light: nat, heavy: nat)
    requires 0 < light <= heavy && requested > 0 && blockSize > 0 && targetBytes > 0
    ensures TransferChunkSize(requested, blockSize, targetBytes, light).value >= TransferChunkSize(requested, blockSize, targetBytes, heavy).value
  {
    LargerQuotient(targetBytes, light, heavy);
    var x, y := Max(blockSize, targetBytes / heavy), Max(blockSize, targetBytes / light);
    SameDivisor(x + blockSize / 2, y + blockSize / 2, blockSize);
    MulMonotone((x + blockSize / 2) / blockSize, (y + blockSize / 2) / blockSize, blockSize);
  }

  lemma LargerQuotient(n: nat, a: nat, b: nat)
    requires 0 < a <= b
    ensures n / b <= n / a
  {
    var q := n / b;
    QuotientBelow(n, b);
    MulMonotone(a, b, q);
    Commutes(q, a, b);
    AtMostQuotient(q, n, a);
  }

  lemma SameDivisor(m: nat, n: nat, d: nat)
    requires m <= n && d > 0
    ensures m / d <= n / d
  {
    QuotientBelow(m, d);
    AtMostQuotient(m / d, n, d);
  }

  lemma Commutes(q: nat, a: nat, b: nat)
    ensures a * q == q * a && b * q == q * b
  {
  }

  lemma AtMostQuotient(k: nat, n: nat, d: nat)
    requires d > 0 && k * d <= n
    ensures k <= n / d
  {
    var q := n / d;
    Euclid(n, d);
    if k > q {
      MulMonotone(q + 1, k, d);
    }
  }

  lemma Euclid(n: nat, d: nat)
    requires d > 0
    ensures n < (n / d + 1) * d
  {
    assert n == n / d * d + n % d;
    assert (n / d + 1) * d == n / d * d + d;
  }

  /**
   The estimate is what the codecs put on the wire: bytes and one four-byte scale per
   group of 64. It counts the tensor itself, they send whole groups; so it is exact for
   whole groups and short by less than a group of codes otherwise.
   */
  lemma EstimateIsWhatIsSent(x: seq<real>)
    requires x != []
    ensures var int4, int8 := KvQuantizer.Int4Of(x, 64), KvQuantizer.Encoded(x, 64, 127);
            && BytesPerToken(|x|, QuantizedTransfer) <= |int4.packed| + 4 * |int4.scales| < BytesPerToken(|x|, QuantizedTransfer) + 32
            && BytesPerToken(|x|, Int8Transfer) <= |int8.0| + 4 * |int8.1| < BytesPerToken(|x|, Int8Transfer) + 64
            && (|x| % 64 == 0 ==>
                  && |int4.packed| + 4 * |int4.scales| == BytesPerToken(|x|, QuantizedTransfer)
                  && |int8.0| + 4 * |int8.1| == BytesPerToken(|x|, Int8Transfer))
  {
    SentSizes(x);
    hide KvQuantizer.Int4Of, KvQuantizer.Encoded;
  }

  lemma SentSizes(x: seq<real>)
    ensures var groups, int4, int8 := (|x| + 63) / 64, KvQuantizer.Int4Of(x, 64), KvQuantizer.Encoded(x, 64, 127);
            && |int4.scales| == |int8.1| == groups
            && |int8.0| == 64 * groups && |int4.packed| == 32 * groups
  {
    hide KvQuantizer.Scale, KvQuantizer.Code;
    var groups := (|x| + 63) / 64;
    assert KvQuantizer.GroupCount(|x|, 64) == groups;
    assert Times(groups, 64) == 64 * groups;
  }

  /** From four elements on, a token in full weighs no less than in INT8, and that no less than in INT4. */
  lemma CompressedIsLighter(elements: nat)
    requires elements >= 4
    ensures BytesPerToken(elements, QuantizedTransfer) <= BytesPerToken(elements, Int8Transfer) <= BytesPerToken(elements, FullTransfer)
    ensures BytesPerToken(elements, PartialTransfer) == BytesPerToken(elements, FullTransfer) == 2 * elements
  {
  }

  lemma Multiple(k: nat, n: nat)
    requires n > 0
    ensures k * n % n == 0
  {
    var q := k * n / n;
    assert k * n == q * n + k * n % n;
    assert (q + 1) * n == q * n + n;
    assert (k + 1) * n == k * n + n;
    if q < k {
      MulMonotone(q + 1, k, n);
    } else if k < q {
      MulMonotone(k + 1, q, n);
    }
  }

  lemma QuotientBelow(x: int, n: int)
    requires n > 0
    ensures x / n * n <= x
  {
  }

  // ----- ranges

  /** The ranges follow each other from `from` to `to`, none of them empty. */
  predicate Tiles(ranges: seq<Range>, from: nat, to: nat) {
    if ranges == [] then from == to
    else ranges[0].start == from && from < ranges[0].end && Tiles(ranges[1..], ranges[0].end, to)
  }

  lemma {:induction false} TilesJoin(a: seq<Range>, b: seq<Range>, from: nat, mid: nat, to: nat)
    requires Tiles(a, from, mid) && Tiles(b, mid, to)
    ensures Tiles(a + b, from, to)
  {
    if a == [] {
      assert a + b == b;
    } else {
      TilesJoin(a[1..], b, a[0].end, mid, to);
      assert (a + b)[1..] == a[1..] + b;
    }
  }

  lemma {:induction false} TilesAscend(ranges: seq<Range>, from: nat, to: nat)
    requires Tiles(ranges, from, to)
    ensures from <= to && (ranges != [] ==> from < to)
    ensures forall r :: r in ranges ==> from <= r.start < r.end <= to
  {
    if ranges != [] {
      TilesAscend(ranges[1..], ranges[0].end, to);
      assert ranges == [ranges[0]] + ranges[1..];
    }
  }

  /** What the manifest's reader checks: contiguous, not empty, from the prefix to the end. */
  predicate ManifestAccepted(ranges: seq<Range>, prefix: nat, length: nat) {
    && prefix < length && ranges != [] && ranges[0].start == prefix
    && (forall i :: 0 <= i < |ranges| ==>
          && ranges[i].start == (if i == 0 then prefix else ranges[i - 1].end)
          && ranges[i].start < ranges[i].end <= length)
    && ranges[|ranges| - 1].end == length
  }

  /** The manifests accepted are the tilings of what the prefix leaves. */
  lemma {:induction false} AcceptedIffTiles(ranges: seq<Range>, prefix: nat, length: nat)
    ensures ManifestAccepted(ranges, prefix, length) <==> prefix < length && Tiles(ranges, prefix, length)
  {
    hide ManifestAccepted;
    if ranges != [] {
      var head, rest := ranges[0], ranges[1..];
      if Tiles(ranges, prefix, length) {
        TilesAscend(ranges, prefix, length);
      }
      if rest == [] {
        assert Tiles(ranges, prefix, length) <==> head.start == prefix < head.end == length;
        OneAccepted(ranges, prefix, length);
      } else {
        AcceptedIffTiles(rest, head.end, length);
        AcceptedTail(ranges, prefix, length);
        if Tiles(rest, head.end, length) {
          TilesAscend(rest, head.end, length);
        }
      }
    } else {
      NoneAccepted(prefix, length);
    }
  }

  lemma NoneAccepted(prefix: nat, length: nat)
    ensures !ManifestAccepted([], prefix, length)
  {
  }

  lemma OneAccepted(ranges: seq<Range>, prefix: nat, length: nat)
    requires |ranges| == 1
    ensures ManifestAccepted(ranges, prefix, length) <==> ranges[0].start == prefix < ranges[0].end == length
  {
  }

  lemma AcceptedTail(ranges: seq<Range>, prefix: nat, length: nat)
    requires |ranges| > 1
    ensures ManifestAccepted(ranges, prefix, length) <==>
              ranges[0].start == prefix < ranges[0].end && ManifestAccepted(ranges[1..], ranges[0].end, length)
  {
    var rest := ranges[1..];
    assert forall i :: 0 <= i < |rest| ==> rest[i] == ranges[i + 1];
    if ManifestAccepted(ranges, prefix, length) {
      assert ranges[1].start == ranges[0].end;
      forall i | 0 <= i < |rest|
        ensures rest[i].start == (if i == 0 then ranges[0].end else rest[i - 1].end) && rest[i].start < rest[i].end <= length
      {
        assert ranges[i + 1].start == ranges[i].end;
      }
    }
    if ranges[0].start == prefix < ranges[0].end && ManifestAccepted(rest, ranges[0].end, length) {
      forall i | 0 <= i < |ranges|
        ensures ranges[i].start == (if i == 0 then prefix else ranges[i - 1].end) && ranges[i].start < ranges[i].end <= length
      {
        if i > 0 {
          assert rest[i - 1] == ranges[i];
        }
      }
    }
  }

  // ----- the prefill side

  /** The chunks of a prompt from `start` on. */
  function Produced(start: nat, split: nat, chunkSize: nat): seq<Range>
    requires chunkSize > 0
    decreases split - start
  {
    if start >= split then []
    else [Range(start, Min(start + chunkSize, split))] + Produced(start + chunkSize, split, chunkSize)
  }

  /** All chunks of a prompt whose last token may be computed on its own. */
  function AllProduced(length: nat, split: nat, chunkSize: nat): seq<Range>
    requires chunkSize > 0
  {
    Produced(0, split, chunkSize) + if split < length then [Range(split, split + 1)] else []
  }

  /** The part of the chunks that the host prefix does not already have. */
  function Suffix(ranges: seq<Range>, prefix: nat): seq<Range> {
    if ranges == [] then []
    else (if ranges[0].end > prefix then [Range(Max(ranges[0].start, prefix), ranges[0].end)] else []) + Suffix(ranges[1..], prefix)
  }

  lemma {:induction false} SuffixJoin(a: seq<Range>, b: seq<Range>, prefix: nat)
    ensures Suffix(a + b, prefix) == Suffix(a, prefix) + Suffix(b, prefix)
  {
    if a == [] {
      assert a + b == b;
    } else {
      assert (a + b)[1..] == a[1..] + b;
      SuffixJoin(a[1..], b, prefix);
    }
  }

  lemma {:induction false} ProducedTiles(start: nat, split: nat, chunkSize: nat)
    requires chunkSize > 0 && start <= split
    ensures Tiles(Produced(start, split, chunkSize), start, split)
    decreases split - start
  {
    if start + chunkSize < split {
      ProducedTiles(start + chunkSize, split, chunkSize);
    }
  }

  lemma {:induction false} SuffixTiles(ranges: seq<Range>, from: nat, to: nat, prefix: nat)
    requires Tiles(ranges, from, to) && prefix <= to
    ensures Tiles(Suffix(ranges, prefix), Max(from, prefix), to)
  {
    if ranges != [] {
      TilesAscend(ranges, from, to);
      var rest := Suffix(ranges[1..], prefix);
      SuffixTiles(ranges[1..], ranges[0].end, to, prefix);
      if ranges[0].end > prefix {
        var first := Range(Max(ranges[0].start, prefix), ranges[0].end);
        assert ([first] + rest)[1..] == rest;
        assert Suffix(ranges, prefix) == [first] + rest;
      } else {
        assert Suffix(ranges, prefix) == rest;
      }
    }
  }

  /** Only the start after the host prefix and the last token are off the chunk grid. */
  lemma {:induction false} StartsAreAligned(start: nat, split: nat, chunkSize: nat, blockSize: nat, k: nat)
    requires chunkSize > 0 && blockSize > 0 && chunkSize % blockSize == 0 && start % blockSize == 0
    requires k < |Produced(start, split, chunkSize)|
    ensures Produced(start, split, chunkSize)[k].start % blockSize == 0
    decreases k
  {
    if k > 0 {
      SumAligned(start, chunkSize, blockSize);
      StartsAreAligned(start + chunkSize, split, chunkSize, blockSize, k - 1);
    }
  }

  lemma SumAligned(a: nat, b: nat, n: nat)
    requires n > 0 && a % n == 0 && b % n == 0
    ensures (a + b) % n == 0
  {
    assert a == a / n * n && b == b / n * n;
    assert a + b == (a / n + b / n) * n;
    Multiple(a / n + b / n, n);
  }

  /**
   The prefill worker announces its ranges, then runs the prompt chunk by chunk and
   sends each chunk's part as it is computed: just the ranges it announced, in order.
   `length` is the prompt, `prefix` what the host cache already holds of it.
   */
  method Process(length: nat, nMinusOne: bool, chunkSize: nat, prefix: nat) returns (announced: seq<Range>, sent: seq<Range>)
    requires length > 0 && chunkSize > 0 && prefix < length
    ensures sent == announced
    ensures Tiles(announced, prefix, length) && ManifestAccepted(announced, prefix, length)
    ensures forall b :: prefix < b < length ==> (Begins(sent, b) <==> b % chunkSize == 0 || (nMinusOne && b == length - 1))
  {
    hide Tiles, ManifestAccepted, Suffix, Produced, Begins;
    var split := if nMinusOne && length > 1 then length - 1 else length;
    announced := Suffix(AllProduced(length, split, chunkSize), prefix);
    sent := [];
    var start := 0;
    while start < split
      invariant sent + Suffix(Produced(start, split, chunkSize), prefix) == Suffix(Produced(0, split, chunkSize), prefix)
      decreases split - start
    {
      SuffixStep(start, split, chunkSize, prefix);
      sent := Publish(sent, Range(start, Min(start + chunkSize, split)), prefix);
      start := start + chunkSize;
    }
    NothingLeft(start, split, length, chunkSize, prefix);
    if split < length {
      sent := Publish(sent, Range(split, split + 1), prefix);
    }
    AnnouncedTiles(length, split, chunkSize, prefix);
    AcceptedIffTiles(announced, prefix, length);
    assert sent == announced;
    forall b | prefix < b < length ensures Begins(sent, b) <==> b % chunkSize == 0 || (nMinusOne && b == length - 1) {
      AnnouncedBegins(length, split, chunkSize, prefix, b);
    }
  }

  lemma SuffixStep(start: nat, split: nat, chunkSize: nat, prefix: nat)
    requires start < split && chunkSize > 0
    ensures var chunk := Range(start, Min(start + chunkSize, split));
            Suffix(Produced(start, split, chunkSize), prefix)
            == (if chunk.end > prefix then [Range(Max(chunk.start, prefix), chunk.end)] else [])
               + Suffix(Produced(start + chunkSize, split, chunkSize), prefix)
  {
    assert Produced(start, split, chunkSize)[1..] == Produced(start + chunkSize, split, chunkSize);
  }

  lemma NothingLeft(start: nat, split: nat, length: nat, chunkSize: nat, prefix: nat)
    requires split <= start && chunkSize > 0
    ensures Suffix(Produced(start, split, chunkSize), prefix) == []
    ensures Suffix(AllProduced(length, split, chunkSize), prefix)
            == Suffix(Produced(0, split, chunkSize), prefix)
               + if split < length && split + 1 > prefix then [Range(Max(split, prefix), split + 1)] else []
  {
    SuffixJoin(Produced(0, split, chunkSize), if split < length then [Range(split, split + 1)] else [], prefix);
  }

  lemma AnnouncedTiles(length: nat, split: nat, chunkSize: nat, prefix: nat)
    requires chunkSize > 0 && prefix < length && split <= length <= split + 1
    ensures Tiles(Suffix(AllProduced(length, split, chunkSize), prefix), prefix, length)
  {
    ProducedTiles(0, split, chunkSize);
    TilesJoin(Produced(0, split, chunkSize), if split < length then [Range(split, split + 1)] else [], 0, split, length);
    SuffixTiles(AllProduced(length, split, chunkSize), 0, length, prefix);
  }

  /** One of the ranges starts here. */
  ghost predicate Begins(ranges: seq<Range>, b: int) {
    exists r :: r in ranges && r.start == b
  }

  lemma {:induction false} ProducedBegins(start: nat, split: nat, chunkSize: nat, b: int)
    requires chunkSize > 0 && start % chunkSize == 0
    ensures Begins(Produced(start, split, chunkSize), b) <==> start <= b < split && b % chunkSize == 0
    decreases split - start
  {
    if start < split {
      var first, rest := Range(start, Min(start + chunkSize, split)), Produced(start + chunkSize, split, chunkSize);
      BeginsJoin([first], rest, b);
      SumAligned(start, chunkSize, chunkSize);
      ProducedBegins(start + chunkSize, split, chunkSize, b);
      if start < b && b % chunkSize == 0 {
        NextAligned(start, b, chunkSize);
      }
      assert Begins([first], b) <==> b == start by {
        assert first in [first];
      }
    }
  }

  lemma NextAligned(a: nat, b: nat, n: nat)
    requires n > 0 && a < b && a % n == 0 && b % n == 0
    ensures a + n <= b
  {
    assert a == a / n * n && b == b / n * n;
    if b / n <= a / n {
      MulMonotone(b / n, a / n, n);
    } else {
      MulMonotone(a / n + 1, b / n, n);
      assert (a / n + 1) * n == a / n * n + n;
    }
  }

  lemma BeginsJoin(a: seq<Range>, c: seq<Range>, b: int)
    ensures Begins(a + c, b) <==> Begins(a, b) || Begins(c, b)
  {
    if Begins(a + c, b) {
      var r :| r in a + c && r.start == b;
      assert r in a || r in c;
    }
    if Begins(a, b) {
      var r :| r in a && r.start == b;
      assert r in a + c;
    }
    if Begins(c, b) {
      var r :| r in c && r.start == b;
      assert r in a + c;
    }
  }

  /** Clipping at the host prefix moves no start beyond it. */
  lemma {:induction false} SuffixBegins(ranges: seq<Range>, from: nat, to: nat, prefix: nat, b: int)
    requires Tiles(ranges, from, to) && prefix < b
    ensures Begins(Suffix(ranges, prefix), b) <==> Begins(ranges, b)
  {
    if ranges != [] {
      var first, rest := ranges[0], ranges[1..];
      var clipped := if first.end > prefix then [Range(Max(first.start, prefix), first.end)] else [];
      SuffixBegins(rest, first.end, to, prefix, b);
      assert ranges == [first] + rest;
      BeginsJoin([first], rest, b);
      BeginsJoin(clipped, Suffix(rest, prefix), b);
      assert Begins([first], b) <==> Begins(clipped, b) by {
        assert first in [first];
        if first.end > prefix {
          assert clipped[0] in clipped;
        }
      }
    }
  }

  /** Beyond the host prefix the chunks are cut at each multiple of their size, and before a last token on its own. */
  lemma AnnouncedBegins(length: nat, split: nat, chunkSize: nat, prefix: nat, b: int)
    requires chunkSize > 0 && split <= length <= split + 1 && prefix < b < length
    ensures Begins(Suffix(AllProduced(length, split, chunkSize), prefix), b) <==> b % chunkSize == 0 || b == split
  {
    hide Tiles, Suffix, Produced;
    var tail := if split < length then [Range(split, split + 1)] else [];
    ProducedTiles(0, split, chunkSize);
    assert Tiles(tail, split, length) by {
      TailTiles(split, length);
    }
    TilesJoin(Produced(0, split, chunkSize), tail, 0, split, length);
    SuffixBegins(Produced(0, split, chunkSize) + tail, 0, length, prefix, b);
    BeginsJoin(Produced(0, split, chunkSize), tail, b);
    ProducedBegins(0, split, chunkSize, b);
    assert Begins(tail, b) <==> split < length && b == split by {
      assert split < length ==> tail[0] in tail;
    }
  }

  lemma TailTiles(split: nat, length: nat)
    requires split <= length <= split + 1
    ensures Tiles(if split < length then [Range(split, split + 1)] else [], split, length)
  {
  }

  /** One chunk is done: whatever the host prefix does not cover is sent. */
  method Publish(sent: seq<Range>, chunk: Range, prefix: nat) returns (now: seq<Range>)
    requires chunk.start < chunk.end
    ensures now == sent + if chunk.end > prefix then [Range(Max(chunk.start, prefix), chunk.end)] else []
  {
    var start := Max(chunk.start, prefix);
    now := if chunk.end > start then sent + [Range(start, chunk.end)] else sent;
  }

  // ----- the decode side

  function Payload<V>(kv: seq<V>, r: Range): seq<V>
    requires r.start <= r.end <= |kv|
  {
    kv[r.start..r.end]
  }

  /**
   The decode worker installs the host prefix and then each chunk where its range says.
   It ends with the whole prompt's KV on its pages, and the parts it received, put one
   behind the other for its own host cache, are the same.
   */
  method Receive<V(0)>(kv: seq<V>, prefix: nat, ranges: seq<Range>) returns (pages: array<V>, cached: seq<V>)
    requires prefix <= |kv| && Tiles(ranges, prefix, |kv|)
    ensures pages[..] == kv && cached == kv
  {
    pages := new V[|kv|];
    forall i | 0 <= i < prefix {
      pages[i] := kv[i];
    }
    cached := kv[..prefix];
    ghost var done: nat := prefix;
    for k := 0 to |ranges|
      invariant done <= |kv| && Tiles(ranges[k..], done, |kv|)
      invariant pages[..done] == kv[..done] && cached == kv[..done]
    {
      var r := ranges[k];
      assert ranges[k..][0] == r && ranges[k..][1..] == ranges[k + 1..];
      TilesAscend(ranges[k..], done, |kv|);
      var payload := Payload(kv, r);
      forall i | 0 <= i < |payload| {
        pages[r.start + i] := payload[i];
      }
      cached := cached + payload;
      assert forall i :: done <= i < r.end ==> pages[i] == payload[i - r.start] == kv[i];
      done := r.end;
    }
    assert pages[..done] == pages[..] && kv[..done] == kv;
  }
}
