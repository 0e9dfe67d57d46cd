/**
 * Prompt condensing for the Wikipedia agent: while the chat prompt is over the
 * token budget, the two oldest messages after the system and user messages are
 * dropped. The model's token counter is outside the model and arrives as
 * `count`.
 */
module PromptSize {

  const TokenLimit: nat := 4000

  /** `messages[:2]`: the system and user messages (fewer if the prompt is shorter). */
  function Head<M>(messages: seq<M>): (h: seq<M>)
    ensures |h| <= 2 && |h| <= |messages| && h == messages[..|h|]
    ensures |messages| >= 2 ==> |h| == 2
  {
    if |messages| < 2 then messages else messages[..2]
  }

  /** `messages[2:]`: the agent and function messages. */
  function Tail<M>(messages: seq<M>): (t: seq<M>)
    ensures Head(messages) + t == messages
  {
    if |messages| < 2 then [] else messages[2..]
  }

  /** `s[2:]`. */
  function DropOldestPair<M>(s: seq<M>): (r: seq<M>)
    ensures |s| >= 2 ==> r == s[2..]
    ensures |s| < 2 ==> r == []
  {
    if |s| < 2 then [] else s[2..]
  }

  /** The tail after `k` rounds of dropping: `tail[2k:]`. */
  function Dropped<M>(tail: seq<M>, k: nat): seq<M>
  {
    if 2 * k >= |tail| then [] else tail[2 * k..]
  }

  /** The prompt the loop tests after `k` rounds. */
  function Candidate<M>(messages: seq<M>, k: nat): seq<M>
  {
    Head(messages) + Dropped(Tail(messages), k)
  }

  /**
   * Some number of rounds brings the prompt within budget. This is exactly when
   * the loop stops: otherwise the count never falls to the budget and the loop
   * runs forever once the tail is empty.
   */
  ghost predicate EventuallyFits<M>(messages: seq<M>, count: seq<M> -> nat)
  {
    exists k: nat :: count(Candidate(messages, k)) <= TokenLimit
  }

  lemma DroppedStep<M>(tail: seq<M>, k: nat)
    ensures Dropped(tail, k + 1) == DropOldestPair(Dropped(tail, k))
  {
  }

  lemma DroppedEmptyStays<M>(tail: seq<M>, k: nat, j: nat)
    requires Dropped(tail, k) == [] && k <= j
    ensures Dropped(tail, j) == []
  {
  }

  /**
   * `condense_prompt`. The result keeps the first two messages and drops the
   * 2k oldest of the rest, for the least k whose prompt is within budget.
   */
  method CondensePrompt<M>(messages: seq<M>, count: seq<M> -> nat) returns (result: seq<M>)
    requires EventuallyFits(messages, count)
    ensures count(result) <= TokenLimit
    ensures exists k: nat :: k <= (|Tail(messages)| + 1) / 2 && result == Candidate(messages, k)
                             && forall j: nat :: j < k ==> count(Candidate(messages, j)) > TokenLimit
    ensures |result| >= |Head(messages)| && result[..|Head(messages)|] == Head(messages)
    ensures count(messages) <= TokenLimit ==> result == messages
  {
    var head, tail := Head(messages), Tail(messages);
    var numTokens := count(messages);
    var rest := tail;
    ghost var k: nat := 0;
    assert Dropped(tail, 0) == tail;
    while numTokens > TokenLimit
      invariant rest == Dropped(tail, k)
      invariant k <= (|tail| + 1) / 2
      invariant numTokens == count(head + rest)
      invariant k > 0 ==> count(messages) > TokenLimit
      invariant forall j: nat :: j < k ==> count(Candidate(messages, j)) > TokenLimit
      decreases |rest|
    {
      assert rest != [] by {
        var w: nat :| count(Candidate(messages, w)) <= TokenLimit;
        if rest == [] {
          if k <= w {
            DroppedEmptyStays(tail, k, w);
          }
        }
      }
      DroppedStep(tail, k);
      rest := DropOldestPair(rest);
      k := k + 1;
      numTokens := count(head + rest);
    }
    result := head + rest;
    assert result == Candidate(messages, k);
  }

  /** When the first two messages alone are within budget, the loop stops. */
  lemma HeadFitsTerminates<M>(messages: seq<M>, count: seq<M> -> nat)
    requires count(Head(messages)) <= TokenLimit
    ensures EventuallyFits(messages, count)
  {
    var k: nat := |messages|;
    assert Dropped(Tail(messages), k) == [];
    assert Candidate(messages, k) == Head(messages);
  }
}
