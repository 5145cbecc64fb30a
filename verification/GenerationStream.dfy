/** What one request's token stream is when the request runs alone, and when it ends. */
module GenerationStream {
  import opened Basics
  import BlockManager

  type Token = int

  /**
   The parts of a submitted request that never change. `clean` is about the run as a
   whole: no decode step leaves a trace in this request's state but its own token. What
   makes it true of the runtime backend is said in `RuntimeBackend`.
   */
  datatype Spec = Spec(
    id: int,
    clean: bool,
    prompt: seq<Token>,
    maxNewTokens: nat,
    priority: int,
    deadline: Option<real>,
    ignoreEos: bool,
    stopSequences: seq<seq<Token>>)

  /**
   The token sampled from a request's state, its history and its step: a function of
   nothing else, so of no other request in the batch.
   */
  type Sampler = (int, seq<Token>, seq<Token>, nat) -> Token

  /** The first `n` tokens of a request that runs alone. */
  function Solo(sampler: Sampler, spec: Spec, n: nat): (g: seq<Token>)
    ensures |g| == n
  {
    if n == 0 then []
    else
      var g := Solo(sampler, spec, n - 1);
      g + [sampler(spec.id, spec.prompt + g, spec.prompt + g, n - 1)]
  }

  lemma {:induction false} SoloPrefix(sampler: Sampler, spec: Spec, m: nat, n: nat)
    requires m <= n
    ensures Solo(sampler, spec, n)[..m] == Solo(sampler, spec, m)
    decreases n
  {
    if m < n {
      SoloPrefix(sampler, spec, m, n - 1);
      assert Solo(sampler, spec, n)[..m] == Solo(sampler, spec, n - 1)[..m];
    }
  }

  datatype Reason = Stop | Length | Cancelled | Failed

  predicate EndsWith(g: seq<Token>, s: seq<Token>) {
    s != [] && |g| >= |s| && g[|g| - |s|..] == s
  }

  /** Why a stream that has come this far ends, if it does. */
  function FinishReason(spec: Spec, eos: Option<Token>, g: seq<Token>): Option<Reason>
    requires g != []
  {
    if !spec.ignoreEos && eos == Some(g[|g| - 1]) then Some(Stop)
    else if exists s :: s in spec.stopSequences && EndsWith(g, s) then Some(Stop)
    else if |g| >= spec.maxNewTokens then Some(Length)
    else None
  }

  /** The last token is the end token, and that is not ignored, or it completes a stop sequence. */
  ghost predicate Stopped(spec: Spec, eos: Option<Token>, g: seq<Token>) {
    && g != []
    && ((!spec.ignoreEos && eos == Some(g[|g| - 1])) || exists s, h :: s in spec.stopSequences && s != [] && g == h + s)
  }

  /** What each answer means: a stream stops at such a token, and otherwise ends only at its full length. */
  lemma EndsIff(spec: Spec, eos: Option<Token>, g: seq<Token>)
    requires g != []
    ensures FinishReason(spec, eos, g) == Some(Stop) <==>
              || (!spec.ignoreEos && eos == Some(g[|g| - 1]))
              || exists s, h :: s in spec.stopSequences && s != [] && g == h + s
    ensures FinishReason(spec, eos, g) == Some(Stop) <==> Stopped(spec, eos, g)
    ensures FinishReason(spec, eos, g) == Some(Length) <==> !Stopped(spec, eos, g) && |g| >= spec.maxNewTokens
    ensures FinishReason(spec, eos, g).None? <==> !Stopped(spec, eos, g) && |g| < spec.maxNewTokens
  {
    forall s | s in spec.stopSequences ensures EndsWith(g, s) <==> s != [] && exists h :: g == h + s {
      if EndsWith(g, s) {
        assert g == g[..|g| - |s|] + s;
      }
    }
    if s :| s in spec.stopSequences && EndsWith(g, s) {
      assert g == g[..|g| - |s|] + s;
    }
  }

  /** An unended stream never came to such a token, nor to its full length, before its last token. */
  lemma UnendedIff(spec: Spec, eos: Option<Token>, g: seq<Token>)
    ensures Unended(spec, eos, g) <==> forall n :: 0 < n < |g| ==> !Stopped(spec, eos, g[..n]) && n < spec.maxNewTokens
  {
    hide FinishReason, Stopped;
    forall n | 0 < n < |g|
      ensures FinishReason(spec, eos, g[..n]).None? <==> !Stopped(spec, eos, g[..n]) && n < spec.maxNewTokens
    {
      EndsIff(spec, eos, g[..n]);
    }
  }

  /** No earlier point of a stream was its end. */
  predicate Unended(spec: Spec, eos: Option<Token>, g: seq<Token>) {
    forall n :: 0 < n < |g| ==> FinishReason(spec, eos, g[..n]).None?
  }

  lemma UnendedNext(spec: Spec, eos: Option<Token>, g: seq<Token>, token: Token)
    requires Unended(spec, eos, g) && (g != [] ==> FinishReason(spec, eos, g).None?)
    ensures Unended(spec, eos, g + [token])
  {
    forall n | 0 < n < |g + [token]| ensures FinishReason(spec, eos, (g + [token])[..n]).None? {
      assert (g + [token])[..n] == if n == |g| then g else g[..n];
    }
  }

  /** The lengths of unended streams are bounded by what was asked for. */
  lemma UnendedIsShort(spec: Spec, eos: Option<Token>, g: seq<Token>)
    requires Unended(spec, eos, g) && spec.maxNewTokens > 0
    ensures |g| <= spec.maxNewTokens
  {
    if |g| > spec.maxNewTokens {
      LongEnough(spec, eos, g[..spec.maxNewTokens]);
    }
  }

  lemma LongEnough(spec: Spec, eos: Option<Token>, g: seq<Token>)
    requires g != [] && |g| >= spec.maxNewTokens
    ensures FinishReason(spec, eos, g).Some?
  {
  }

  /**
   Two unended streams of the same request agree as far as both go: the stream is a
   property of the request, not of the run.
   */
  lemma SameStream(sampler: Sampler, spec: Spec, g: seq<Token>, h: seq<Token>)
    requires g == Solo(sampler, spec, |g|) && h == Solo(sampler, spec, |h|) && |g| <= |h|
    ensures g <= h
  {
    SoloPrefix(sampler, spec, |g|, |h|);
  }

  /** A stream that has not ended can take one more step within its reservation. */
  lemma NextStepIsReserved(spec: Spec, eos: Option<Token>, g: seq<Token>)
    requires g != [] && FinishReason(spec, eos, g).None?
    ensures |Replay(spec, g)| + 1 <= |spec.prompt| + Max(0, spec.maxNewTokens - 1)
  {
  }

  /** A request's pages hold its state, and were reserved to its end when it was admitted. */
  predicate Housed(spec: Spec, g: seq<Token>, a: BlockManager.BlockAllocation) {
    && g != [] && a.numTokens == |Replay(spec, g)|
    && a.reservedTokens >= |spec.prompt| + Max(0, spec.maxNewTokens - 1)
  }

  /** No decode batch of requests that go on ever needs a page that is not yet theirs. */
  lemma DecodeNeedsNoPage(
    numBlocks: nat, blockSize: nat, headroom: nat, free: seq<int>, refcounts: seq<nat>, allocations: BlockManager.Allocations,
    specs: map<int, Spec>, generated: map<int, seq<Token>>, eos: Option<Token>, ids: seq<int>)
    requires BlockManager.Consistent(numBlocks, blockSize, headroom, free, refcounts, allocations)
    requires forall id :: id in ids ==>
               && id in specs && id in generated && id in allocations
               && Housed(specs[id], generated[id], allocations[id])
               && FinishReason(specs[id], eos, generated[id]).None?
    ensures BlockManager.ExtraTotal(allocations, ids, 1, blockSize) == 0
  {
    forall id | id in ids ensures allocations[id].numTokens + 1 <= allocations[id].reservedTokens {
      NextStepIsReserved(specs[id], eos, generated[id]);
    }
    BlockManager.NoMidStreamExhaustion(numBlocks, blockSize, headroom, free, refcounts, allocations, ids, 1);
  }

  /** The allocation of an admitted request after its first token and `n - 1` more. */
  function Aged(a: BlockManager.BlockAllocation, n: nat): BlockManager.BlockAllocation
    requires n > 0
  {
    if n == 1 then a else BlockManager.Grown(Aged(a, n - 1), 1, [])
  }

  /**
   A request that was admitted with pages for its prompt and its longest answer decodes
   to its end on them: no step of its life asks for another page.
   */
  lemma {:induction false} WholeLifeFits(
    spec: Spec, eos: Option<Token>, g: seq<Token>, a: BlockManager.BlockAllocation, blockSize: nat, n: nat)
    requires blockSize > 0 && Unended(spec, eos, g) && 0 < n < |g|
    requires a.numTokens == |spec.prompt| && a.reservedTokens == |spec.prompt| + Max(0, spec.maxNewTokens - 1)
    requires |a.blockIds| == BlockManager.BlocksRequired(a.reservedTokens, blockSize)
    ensures Housed(spec, g[..n], Aged(a, n))
    ensures BlockManager.ExtraBlocks(Aged(a, n), 1, blockSize) == 0
    ensures Aged(a, n).reservedTokens == a.reservedTokens && Aged(a, n).blockIds == a.blockIds
  {
    if n > 1 {
      WholeLifeFits(spec, eos, g, a, blockSize, n - 1);
      NextStepIsReserved(spec, eos, g[..n - 1]);
    }
    assert FinishReason(spec, eos, g[..n]).None?;
    BlockManager.BlocksRequiredMonotone(|spec.prompt| + n, a.reservedTokens, blockSize);
  }

  // ----- the backend's view

  /** What must be folded into a request's state so that it can go on from `g`: all but the last token. */
  function Replay(spec: Spec, g: seq<Token>): seq<Token>
    requires g != []
  {
    spec.prompt + g[..|g| - 1]
  }

  /** One decode step from an exact state yields the next token of the solo stream and an exact state. */
  lemma StepFollowsSolo(sampler: Sampler, spec: Spec, g: seq<Token>)
    requires g != [] && g == Solo(sampler, spec, |g|)
    ensures var folded := Replay(spec, g) + [g[|g| - 1]];
            var token := sampler(spec.id, folded, spec.prompt + g, |g|);
            && g + [token] == Solo(sampler, spec, |g| + 1)
            && folded == Replay(spec, g + [token])
  {
    hide Solo;
    FoldedLast(spec, g);
    SoloNext(sampler, spec, g);
    ReplayNext(spec, g, sampler(spec.id, spec.prompt + g, spec.prompt + g, |g|));
  }

  lemma FoldedLast(spec: Spec, g: seq<Token>)
    requires g != []
    ensures Replay(spec, g) + [g[|g| - 1]] == spec.prompt + g
  {
    assert g[..|g| - 1] + [g[|g| - 1]] == g;
  }

  lemma ReplayNext(spec: Spec, g: seq<Token>, token: Token)
    ensures Replay(spec, g + [token]) == spec.prompt + g
  {
    assert (g + [token])[..|g|] == g;
  }

  lemma SoloNext(sampler: Sampler, spec: Spec, g: seq<Token>)
    requires g == Solo(sampler, spec, |g|)
    ensures Solo(sampler, spec, |g| + 1) == g + [sampler(spec.id, spec.prompt + g, spec.prompt + g, |g|)]
  {
  }

  /** Prefill does the same from nothing. */
  lemma PrefillFollowsSolo(sampler: Sampler, spec: Spec)
    ensures var token := sampler(spec.id, spec.prompt, spec.prompt, 0);
            && [token] == Solo(sampler, spec, 1)
            && spec.prompt == Replay(spec, [token])
  {
    var token := sampler(spec.id, spec.prompt, spec.prompt, 0);
    assert spec.prompt + [] == spec.prompt;
    assert Solo(sampler, spec, 0) == [];
  }
}
