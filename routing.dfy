/**
 * Semantic prompt routing: the query is scored against each prompt template
 * (one similarity score per template, in template order) and the template with
 * the highest score is used; numpy's `argmax` breaks ties towards the first.
 *
 * The embeddings and the cosine similarity are computed by libraries; the model
 * takes the score vector as given, over exact reals.
 */
module Routing {

  const PhysicsTemplate: string :=
    "You are a very smart physics professor. You are great at answering questions about physics "
    + "in a concise and easy to understand manner. When you don't know the answer to a question "
    + "you admit that you don't know.\n\nHere is a question:\n{query}"

  const MathTemplate: string :=
    "You are a very good mathematician. You are great at answering math questions. You are so good "
    + "because you are able to break down hard problems into their component parts, answer the "
    + "component parts, and then put them together to answer the broader question.\n\nHere is a "
    + "question:\n{query}"

  const PromptTemplates: seq<string> := [PhysicsTemplate, MathTemplate]

  /** Index `k` holds a maximal score, and no earlier index does. */
  predicate IsFirstMax(scores: seq<real>, k: int)
  {
    0 <= k < |scores|
    && (forall j :: 0 <= j < |scores| ==> scores[j] <= scores[k])
    && (forall j :: 0 <= j < k ==> scores[j] < scores[k])
  }

  /** numpy's `argmax`: the first index of a maximal score. */
  function ArgMax(scores: seq<real>): (k: nat)
    requires |scores| > 0
    ensures IsFirstMax(scores, k)
    decreases |scores|
  {
    if |scores| == 1 then 0
    else
      var k := ArgMax(scores[..|scores| - 1]);
      if scores[|scores| - 1] > scores[k] then |scores| - 1 else k
  }

  /** The first maximum is unique: any index that is a first maximum is ArgMax's. */
  lemma FirstMaxUnique(scores: seq<real>, k: int)
    requires |scores| > 0 && IsFirstMax(scores, k)
    ensures k == ArgMax(scores)
  {
  }

  /** What `prompt_router` hands on: the template and the line it prints. */
  datatype Route = Route(template: string, log: string)

  /** `prompt_router`, given the similarity of the query to each template. */
  function PromptRouter(scores: seq<real>): (r: Route)
    requires |scores| == |PromptTemplates|
    ensures r.template in PromptTemplates
  {
    var chosen := PromptTemplates[ArgMax(scores)];
    Route(chosen, if chosen == MathTemplate then "Using MATH" else "Using PHYSICS")
  }

  /** The two templates differ, so the log reads MATH exactly when index 1 wins. */
  lemma RouterLogNamesWinner(scores: seq<real>)
    requires |scores| == |PromptTemplates|
    ensures PromptRouter(scores).log == "Using MATH" <==> scores[1] > scores[0]
    ensures PromptRouter(scores).log == "Using PHYSICS" <==> scores[0] >= scores[1]
  {
    assert |PhysicsTemplate| != |MathTemplate|;
  }

  /** The chosen template scores at least as high as every template. */
  lemma RouterPicksBestScore(scores: seq<real>, j: nat)
    requires |scores| == |PromptTemplates| && j < |scores|
    ensures exists k :: 0 <= k < |scores| && PromptRouter(scores).template == PromptTemplates[k] && scores[j] <= scores[k]
  {
    var k := ArgMax(scores);
    assert PromptRouter(scores).template == PromptTemplates[k];
  }

  /** Equal scores send the query to the physics template, the first in the list. */
  lemma RouterTieGoesToFirst(scores: seq<real>)
    requires |scores| == |PromptTemplates| && scores[0] == scores[1]
    ensures PromptRouter(scores) == Route(PhysicsTemplate, "Using PHYSICS")
  {
    RouterLogNamesWinner(scores);
  }
}
