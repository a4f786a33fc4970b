/**
 Greedy speculative decoding (research/speculative-decoding/0a-acceptance-rate.py at temperature 0).
 A language model is causal: for every text it names the most likely next token, and one forward pass
 over a text gives that prediction after each of its prefixes.
 */
module SpeculativeGreedy {
  import opened Basics

  type Token = nat

  /** The arg-max after a text. */
  type Model = seq<Token> -> Token

  /** One pass over a text: position `j` predicts token `j + 1`. */
  function ForwardPass(model: Model, text: seq<Token>): seq<Token> {
    seq(|text|, j requires 0 <= j < |text| => model(text[..j + 1]))
  }

  /** Plain greedy decoding: `n` tokens after `ctx`. */
  ghost function Plain(model: Model, ctx: seq<Token>, n: nat): (text: seq<Token>)
    ensures |text| == n
  {
    if n == 0 then [] else
    var text := Plain(model, ctx, n - 1);
    text + [model(ctx + text)]
  }

  /** The length of the longest common prefix. */
  function CommonPrefix(a: seq<Token>, b: seq<Token>): nat {
    if a == [] || b == [] || a[0] != b[0] then 0 else 1 + CommonPrefix(a[1..], b[1..])
  }

  lemma {:induction false} PlainPrefix(model: Model, ctx: seq<Token>, m: nat, n: nat)
    requires m <= n
    ensures Plain(model, ctx, n)[..m] == Plain(model, ctx, m)
  {
    if m < n {
      PlainPrefix(model, ctx, m, n - 1);
    }
  }

  /** Decoding can stop and resume: the context carries everything. */
  lemma {:induction false} PlainResumes(model: Model, ctx: seq<Token>, m: nat, n: nat)
    ensures Plain(model, ctx, m + n) == Plain(model, ctx, m) + Plain(model, ctx + Plain(model, ctx, m), n)
  {
    var head := Plain(model, ctx, m);
    if n > 0 {
      PlainResumes(model, ctx, m, n - 1);
      assert ctx + (head + Plain(model, ctx + head, n - 1)) == ctx + head + Plain(model, ctx + head, n - 1);
    } else {
      assert Plain(model, ctx + head, 0) == [];
    }
  }

  lemma {:induction false} CommonPrefixIs(a: seq<Token>, b: seq<Token>, n: nat)
    requires n <= |a| && n <= |b| && a[..n] == b[..n]
    requires n == |a| || n == |b| || a[n] != b[n]
    ensures CommonPrefix(a, b) == n
  {
    if n > 0 {
      assert a[0] == a[..n][0] == b[..n][0] == b[0];
      assert a[1..][..n - 1] == a[..n][1..] == b[..n][1..] == b[1..][..n - 1];
      CommonPrefixIs(a[1..], b[1..], n - 1);
    }
  }

  datatype TokenResult = TokenResult(position: nat, draftToken: Token, targetToken: Token, accepted: bool)

  function DraftTokens(rs: seq<TokenResult>): seq<Token> {
    seq(|rs|, i requires 0 <= i < |rs| => rs[i].draftToken)
  }

  class RoundResult {
    const draftLength: nat
    var acceptedCount: nat
    var bonusToken: Option<Token>
    var tokens: seq<TokenResult>

    constructor (draftLength: nat)
      ensures this.draftLength == draftLength && acceptedCount == 0 && bonusToken == None && tokens == []
    {
      this.draftLength := draftLength;
      acceptedCount, bonusToken, tokens := 0, None, [];
    }

    /** The tokens the round adds to the context: the accepted drafts and the bonus. */
    function Generated(): seq<Token>
      requires acceptedCount <= |tokens|
      reads this
    {
      DraftTokens(tokens[..acceptedCount]) + if bonusToken.Some? then [bonusToken.value] else []
    }

    ghost predicate Valid()
      reads this
    {
      bonusToken.Some? && acceptedCount <= draftLength
      && |tokens| == (if acceptedCount == draftLength then draftLength else acceptedCount + 1)
      && forall i :: 0 <= i < |tokens| ==> tokens[i].position == i && tokens[i].accepted == (i < acceptedCount)
    }
  }

  /** The target's predictions along a drafted text are what it predicts after each of its prefixes. */
  lemma VerifiedInOnePass(target: Model, ctx: seq<Token>, drafted: seq<Token>, i: nat)
    requires ctx != [] && i <= |drafted|
    ensures ForwardPass(target, ctx + drafted)[|ctx| + i - 1] == target(ctx + drafted[..i])
  {
    assert (ctx + drafted)[..|ctx| + i] == ctx + drafted[..i];
  }

  /** Step 1: the draft model writes `k` tokens on its own. */
  method DraftTokensOf(draft: Model, context: seq<Token>, k: nat) returns (draftTokens: seq<Token>)
    requires context != []
    ensures draftTokens == Plain(draft, context, k)
  {
    draftTokens := [];
    var draftContext := context;
    for i := 0 to k
      invariant draftTokens == Plain(draft, context, i) && draftContext == context + draftTokens
    {
      assert draftContext[..|draftContext|] == draftContext;
      var draftToken := ForwardPass(draft, draftContext)[|draftContext| - 1];
      draftTokens := draftTokens + [draftToken];
      draftContext := draftContext + [draftToken];
    }
  }

  /** One result for each drafted token looked at, and only the first `accepted` accepted. */
  ghost predicate TokensFit(tokens: seq<TokenResult>, drafted: seq<Token>, accepted: nat) {
    && |tokens| <= |drafted|
    && forall j :: 0 <= j < |tokens| ==>
        tokens[j].position == j && tokens[j].draftToken == drafted[j] && tokens[j].accepted == (j < accepted)
  }

  /** The first `accepted` drafts are what the target writes, the bonus is what it writes next, and the next draft is not. */
  ghost predicate AgreesUpTo(target: Model, context: seq<Token>, drafted: seq<Token>, accepted: nat, bonus: Option<Token>) {
    && accepted <= |drafted| && drafted[..accepted] == Plain(target, context, accepted)
    && bonus == Some(target(context + drafted[..accepted]))
    && (accepted < |drafted| ==> drafted[accepted] != bonus.value)
  }

  /** Steps 2 and 3: one pass of the target over the drafts, then token by token to the first disagreement. */
  method Verify(r: RoundResult, target: Model, context: seq<Token>, drafted: seq<Token>)
    requires context != [] && r.draftLength == |drafted| && r.acceptedCount == 0 && r.bonusToken.None? && r.tokens == []
    modifies r
    ensures r.Valid() && TokensFit(r.tokens, drafted, r.acceptedCount)
    ensures AgreesUpTo(target, context, drafted, r.acceptedCount, r.bonusToken)
  {
    var predicted := ForwardPass(target, context + drafted);
    var accepted, i, rejected := 0, 0, false;
    while i < |drafted| && !rejected
      invariant accepted <= i <= |drafted| && i == (if rejected then accepted + 1 else accepted)
      invariant drafted[..accepted] == Plain(target, context, accepted)
      invariant |r.tokens| == i && r.acceptedCount == 0 && TokensFit(r.tokens, drafted, accepted)
      invariant rejected ==> AgreesUpTo(target, context, drafted, accepted, r.bonusToken)
      decreases |drafted| - i
    {
      VerifiedInOnePass(target, context, drafted, i);
      var targetToken := predicted[|context| + i - 1];
      var agrees := drafted[i] == targetToken;
      r.tokens := r.tokens + [TokenResult(i, drafted[i], targetToken, agrees)];
      if agrees {
        accepted := accepted + 1;
      } else {
        r.bonusToken := Some(targetToken);
        rejected := true;
      }
      i := i + 1;
    }
    if !rejected {
      VerifiedInOnePass(target, context, drafted, |drafted|);
      r.bonusToken := Some(predicted[|context| + |drafted| - 1]);
    }
    r.acceptedCount := accepted;
  }

  lemma AgreementIsCommonPrefix(target: Model, context: seq<Token>, drafted: seq<Token>, accepted: nat, bonus: Option<Token>)
    requires AgreesUpTo(target, context, drafted, accepted, bonus)
    ensures accepted == CommonPrefix(drafted, Plain(target, context, |drafted|))
  {
    var k := |drafted|;
    PlainPrefix(target, context, accepted, k);
    if accepted < k {
      PlainPrefix(target, context, accepted + 1, k);
      assert Plain(target, context, k)[accepted] == Plain(target, context, k)[..accepted + 1][accepted];
    }
    CommonPrefixIs(drafted, Plain(target, context, k), accepted);
  }

  /**
   One round: draft `k` tokens, verify them in one pass of the target, keep the agreeing prefix and add
   the target's own next token. The result is the target's plain continuation, and the number accepted
   is how far draft and target agree.
   */
  method SpeculativeDecodeRound(draft: Model, target: Model, context: seq<Token>, k: nat) returns (r: RoundResult)
    requires context != []
    ensures fresh(r) && r.draftLength == k && r.Valid()
    ensures r.acceptedCount == CommonPrefix(Plain(draft, context, k), Plain(target, context, k))
    ensures r.Generated() == Plain(target, context, r.acceptedCount + 1)
  {
    r := new RoundResult(k);
    var draftTokens := DraftTokensOf(draft, context, k);
    Verify(r, target, context, draftTokens);
    AgreementIsCommonPrefix(target, context, draftTokens, r.acceptedCount, r.bonusToken);
    assert r.Generated() == draftTokens[..r.acceptedCount] + [r.bonusToken.value];
  }

  class PromptResult {
    var rounds: seq<RoundResult>

    constructor ()
      ensures rounds == []
    {
      rounds := [];
    }
  }

  /** `total_tokens_generated`. */
  function TotalTokens(rounds: seq<RoundResult>): nat
    reads rounds
  {
    if rounds == [] then 0
    else
      var r := rounds[|rounds| - 1];
      TotalTokens(rounds[..|rounds| - 1]) + r.acceptedCount + if r.bonusToken.Some? then 1 else 0
  }

  /** The context is the prompt and the first `m` tokens of the target's plain greedy text. */
  ghost predicate IsPlainContext(target: Model, prompt: seq<Token>, context: seq<Token>, m: nat) {
    context == prompt + Plain(target, prompt, m)
  }

  lemma PlainContextGrows(target: Model, prompt: seq<Token>, context: seq<Token>, m: nat, n: nat)
    requires IsPlainContext(target, prompt, context, m)
    ensures IsPlainContext(target, prompt, context + Plain(target, context, n), m + n)
  {
    PlainResumes(target, prompt, m, n);
    var head, tail := Plain(target, prompt, m), Plain(target, context, n);
    assert prompt + head + tail == prompt + (head + tail);
  }

  /** One turn of the loop: a round, and the context it leaves. */
  method AdvanceByRound(draft: Model, target: Model, prompt: seq<Token>, context: seq<Token>, k: nat, ghost m: nat)
    returns (r: RoundResult, next: seq<Token>)
    requires context != [] && IsPlainContext(target, prompt, context, m)
    ensures fresh(r) && r.Valid() && next != []
    ensures IsPlainContext(target, prompt, next, m + r.acceptedCount + 1) && r.acceptedCount <= k
  {
    r := SpeculativeDecodeRound(draft, target, context, k);
    PlainContextGrows(target, prompt, context, m, r.acceptedCount + 1);
    var accepted := DraftTokens(r.tokens[..r.acceptedCount]);
    next := context + accepted;
    if r.bonusToken.Some? {
      next := next + [r.bonusToken.value];
    }
    assert next == context + r.Generated();
  }

  method Count(result: PromptResult, r: RoundResult, ghost m: nat)
    requires TotalTokens(result.rounds) == m && r.bonusToken.Some?
    modifies result
    ensures result.rounds == old(result.rounds) + [r] && TotalTokens(result.rounds) == m + r.acceptedCount + 1
  {
    TotalTokensAppends(result.rounds, r);
    result.rounds := result.rounds + [r];
  }

  /** A round counted, and the context it leaves. */
  method AddRound(draft: Model, target: Model, prompt: seq<Token>, context: seq<Token>, k: nat, result: PromptResult, ghost m: nat)
    returns (next: seq<Token>, ghost added: nat)
    requires context != [] && IsPlainContext(target, prompt, context, m) && TotalTokens(result.rounds) == m
    modifies result
    ensures |result.rounds| == |old(result.rounds)| + 1 && TotalTokens(result.rounds) == m + added
    ensures 1 <= added <= k + 1 && next != [] && IsPlainContext(target, prompt, next, m + added)
  {
    var r;
    r, next := AdvanceByRound(draft, target, prompt, context, k, m);
    added := r.acceptedCount + 1;
    Count(result, r, m);
  }

  /**
   The context-advance loop of `run_experiment`: whatever the draft model, the context is the prompt and
   a prefix of the target's plain greedy text, between 1 and k + 1 tokens longer after every round, and
   the tokens counted are the tokens added.
   */
  method RunPrompt(draft: Model, target: Model, prompt: seq<Token>, k: nat, numRounds: nat)
    returns (context: seq<Token>, result: PromptResult)
    requires prompt != []
    ensures fresh(result) && |result.rounds| == numRounds
    ensures numRounds <= TotalTokens(result.rounds) <= numRounds * (k + 1)
    ensures IsPlainContext(target, prompt, context, TotalTokens(result.rounds))
  {
    context := prompt;
    result := new PromptResult();
    ghost var m: nat := 0;
    PlainContextStarts(target, prompt);
    for i := 0 to numRounds
      invariant fresh(result) && |result.rounds| == i && TotalTokens(result.rounds) == m
      invariant i <= m <= AtMost(i, k)
      invariant context != [] && IsPlainContext(target, prompt, context, m)
    {
      ghost var added;
      context, added := AddRound(draft, target, prompt, context, k, result, m);
      m := m + added;
    }
    AtMostIsProduct(numRounds, k);
  }

  lemma PlainContextStarts(target: Model, prompt: seq<Token>)
    ensures IsPlainContext(target, prompt, prompt, 0)
  {
  }

  lemma TotalTokensAppends(rounds: seq<RoundResult>, r: RoundResult)
    ensures TotalTokens(rounds + [r]) == TotalTokens(rounds) + r.acceptedCount + if r.bonusToken.Some? then 1 else 0
  {
  }

  /** The most tokens some rounds can add. */
  function AtMost(rounds: nat, k: nat): nat {
    if rounds == 0 then 0 else AtMost(rounds - 1, k) + k + 1
  }

  lemma {:induction false} AtMostIsProduct(rounds: nat, k: nat)
    ensures AtMost(rounds, k) == rounds * (k + 1)
  {
    if rounds > 0 {
      AtMostIsProduct(rounds - 1, k);
    }
  }

  /** Of two contexts that are the prompt and some of the target's text, the shorter is a prefix of the longer. */
  lemma PlainContextsNest(target: Model, prompt: seq<Token>, a: seq<Token>, m: nat, b: seq<Token>, n: nat)
    requires IsPlainContext(target, prompt, a, m) && IsPlainContext(target, prompt, b, n) && m <= n
    ensures a <= b
  {
    PlainPrefix(target, prompt, m, n);
  }

  /**
   Neither the draft model, nor `k`, nor the number of rounds changes the text: of what two runs over the
   same prompt return, the one that counted fewer tokens is a prefix of the other.
   */
  method DraftNeverChangesTheText(target: Model, prompt: seq<Token>, draft: Model, k: nat, rounds: nat,
                                  otherDraft: Model, otherK: nat, otherRounds: nat)
    returns (a: seq<Token>, b: seq<Token>)
    requires prompt != []
    ensures prompt <= a && prompt <= b && (if |a| <= |b| then a <= b else b <= a)
    ensures rounds <= |a| - |prompt| <= rounds * (k + 1) && otherRounds <= |b| - |prompt| <= otherRounds * (otherK + 1)
  {
    var one, other;
    a, one := RunPrompt(draft, target, prompt, k, rounds);
    ghost var m := TotalTokens(one.rounds);
    b, other := RunPrompt(otherDraft, target, prompt, otherK, otherRounds);
    ghost var n := TotalTokens(other.rounds);
    if m <= n {
      PlainContextsNest(target, prompt, a, m, b, n);
    } else {
      PlainContextsNest(target, prompt, b, n, a, m);
    }
  }
}
