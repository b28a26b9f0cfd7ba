/** The Daily Challenge section (app.py lines 44-60): one of five fixed
    prompts is drawn, and a submitted response is appended to the document
    together with the prompt it answers. */
module DailyChallenge {
  import opened Store

  /** The fixed prompt list of the section. */
  const Prompts: seq<string> := [
    "Write three things you are grateful for today.",
    "Reflect on a recent failure and identify the lesson learned.",
    "Challenge yourself to learn something new today.",
    "Step out of your comfort zone – try a new activity.",
    "Encourage someone with a growth mindset message."
  ]

  /** `random.choice(challenges)`: the random source supplies an index below
      the length of the list, and the prompt at that index is shown. */
  function PickPrompt(draw: nat): (prompt: string)
    requires draw < |Prompts|
    ensures prompt in Prompts
  {
    Prompts[draw]
  }

  /** Every one of the five prompts can be drawn. */
  lemma EveryPromptSelectable(prompt: string)
    requires prompt in Prompts
    ensures exists draw: nat :: draw < |Prompts| && PickPrompt(draw) == prompt
  {
    var draw :| 0 <= draw < |Prompts| && Prompts[draw] == prompt;
    assert PickPrompt(draw) == prompt;
  }

  /** The document after one submit: exactly one pair is added at the end of
      `challenges`; earlier pairs and the journal are untouched. */
  function AddResponse(d: Document, prompt: string, response: string): (r: Document)
    ensures |r.challenges| == |d.challenges| + 1
    ensures r.challenges[..|d.challenges|] == d.challenges
    ensures r.challenges[|d.challenges|] == ChallengeResponse(prompt, response)
    ensures r.journal == d.journal
  {
    d.(challenges := d.challenges + [ChallengeResponse(prompt, response)])
  }

  /** Every stored pair answers one of the fixed prompts. */
  predicate PromptsKnown(d: Document)
  {
    forall i :: 0 <= i < |d.challenges| ==> d.challenges[i].challenge in Prompts
  }

  /** Submitting a response to a drawn prompt keeps `PromptsKnown`. */
  lemma SubmitKeepsPromptsKnown(d: Document, draw: nat, response: string)
    requires PromptsKnown(d)
    requires draw < |Prompts|
    ensures PromptsKnown(AddResponse(d, PickPrompt(draw), response))
  {
  }
}
