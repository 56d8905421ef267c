/** Deciding, operation by operation, what may reach Keycloak (internal/planreview/planreview.go). */
module Review {
  import opened Wrappers
  import opened Text
  import opened Plans

  datatype PromptMode = Required | All | Never

  datatype Decision = Accept | Skip | AcceptAll | SkipAll

  /** What a reviewer gives back: some text, or an error. */
  datatype Reply = Answer(text: string) | ReviewerError

  /** What the session makes of it. */
  datatype Word = Said(decision: Decision) | Failure | Gibberish

  /** A reviewer may look at every operation it has been shown so far, the current one last. */
  type Policy = seq<PlanOperation> -> Word

  datatype ReviewError = NoReviewer | ReviewerFailed | UnsupportedDecision | UnsupportedPromptMode

  /** NewSession: an empty mode means required. */
  function ParseMode(text: string): Option<PromptMode> {
    match text
    case "" => Some(Required)
    case "required" => Some(Required)
    case "all" => Some(All)
    case "none" => Some(Never)
    case _ => None
  }

  function NormalizeDecision(text: string): Option<Decision> {
    var value := ReplaceChar(ReplaceChar(Lower(TrimSpace(text)), '-', '_'), ' ', '_');
    if value in ["a", "accept"] then Some(Accept)
    else if value in ["s", "skip"] then Some(Skip)
    else if value in ["aa", "all", "accept_all", "acceptall"] then Some(AcceptAll)
    else if value in ["ss", "sa", "skip_all", "skipall"] then Some(SkipAll)
    else None
  }

  /** The texts of the constants. */
  function ModeText(mode: PromptMode): string {
    match mode
    case Required => "required"
    case All => "all"
    case Never => "none"
  }

  function DecisionText(d: Decision): string {
    match d
    case Accept => "accept"
    case Skip => "skip"
    case AcceptAll => "accept_all"
    case SkipAll => "skip_all"
  }

  /** Every mode and every decision is read back from its own text. */
  lemma {:induction false} TextsRoundTrip(mode: PromptMode, d: Decision)
    ensures ParseMode(ModeText(mode)) == Some(mode)
    ensures NormalizeDecision(DecisionText(d)) == Some(d)
  {
    var text := DecisionText(d);
    VisibleNotSpace(text[0]);
    VisibleNotSpace(text[|text| - 1]);
    assert ReplaceChar(ReplaceChar(Lower(text), '-', '_'), ' ', '_') == text;
  }

  /** The prompt modes by name; an empty name means required. */
  lemma {:induction false} ModesRead(text: string)
    ensures ParseMode("") == ParseMode("required") == Some(Required)
    ensures ParseMode("all") == Some(All) && ParseMode("none") == Some(Never)
    ensures ParseMode(text).Some? <==> text in ["", "required", "all", "none"]
  {
  }

  // ----- what a reviewer may type -----

  /** The words for a decision. */
  function DecisionWords(d: Decision): seq<string> {
    match d
    case Accept => ["a", "accept"]
    case Skip => ["s", "skip"]
    case AcceptAll => ["aa", "all", "accept_all", "acceptall"]
    case SkipAll => ["ss", "sa", "skip_all", "skipall"]
  }

  /** A letter in either case, or an underscore, for which a dash and a space do as well. */
  predicate LetterOf(c: char, l: char) {
    if l == '_' then c in ['_', '-', ' '] else CaseOf(c, l)
  }

  predicate SpelledAs(s: string, word: string) {
    |s| == |word| && forall k | 0 <= k < |s| :: LetterOf(s[k], word[k])
  }

  /** The text is the word with white space around it. */
  predicate SaysWord(text: string, word: string) {
    exists i, j :: 0 <= i <= j <= |text| && AllSpace(text[..i]) && AllSpace(text[j..]) && SpelledAs(text[i..j], word)
  }

  predicate IsWord(word: string) {
    && word != "" && word[0] != '_' && word[|word| - 1] != '_'
    && forall k | 0 <= k < |word| :: word[k] == '_' || 'a' <= word[k] <= 'z'
  }

  lemma {:induction false} LetterNotSpace(c: char, l: char)
    requires 'a' <= l <= 'z' && CaseOf(c, l)
    ensures !IsSpace(c)
  {
    SpacesAre(c);
  }

  function Unified(s: string): string {
    ReplaceChar(ReplaceChar(Lower(s), '-', '_'), ' ', '_')
  }

  lemma {:induction false} UnifiedSpells(s: string, word: string)
    requires IsWord(word)
    ensures Unified(s) == word <==> SpelledAs(s, word)
  {
    assert |Unified(s)| == |s|;
    forall k | 0 <= k < |s| && k < |word| ensures Unified(s)[k] == word[k] <==> LetterOf(s[k], word[k]) {
    }
  }

  lemma {:induction false} SaysTrimmed(text: string, word: string)
    requires IsWord(word)
    ensures SaysWord(text, word) <==> SpelledAs(TrimSpace(text), word)
  {
    if i, j :| 0 <= i <= j <= |text| && AllSpace(text[..i]) && AllSpace(text[j..]) && SpelledAs(text[i..j], word) {
      assert text[i..j][0] == text[i] && text[i..j][j - i - 1] == text[j - 1];
      LetterNotSpace(text[i], word[0]);
      LetterNotSpace(text[j - 1], word[|word| - 1]);
      TrimIsUnique(text, i, j);
    }
    var i, j := TrimSpaceCuts(text);
  }

  lemma {:induction false} ValueDecides(text: string, d: Decision)
    ensures NormalizeDecision(text) == Some(d) <==> Unified(TrimSpace(text)) in DecisionWords(d)
  {
  }

  /** A text is a decision if and only if it is one of the decision's words, whatever its case, the white space around
      it, and dashes or spaces for underscores. So every other text is none. */
  lemma {:induction false} DecisionsRead(text: string, d: Decision)
    ensures NormalizeDecision(text) == Some(d) <==> exists word | word in DecisionWords(d) :: SaysWord(text, word)
  {
    var value := Unified(TrimSpace(text));
    ValueDecides(text, d);
    forall word | word in DecisionWords(d) ensures value == word <==> SaysWord(text, word) {
      WordsAreWords(d, word);
      UnifiedSpells(TrimSpace(text), word);
      SaysTrimmed(text, word);
    }
  }

  lemma {:induction false} WordsAreWords(d: Decision, word: string)
    requires word in DecisionWords(d)
    ensures IsWord(word)
  {
  }

  predicate ShouldPrompt(mode: PromptMode, op: PlanOperation) {
    match mode
    case Never => false
    case All => true
    case Required => op.risk == RequiresApproval
  }

  function Heard(reply: Reply): Word {
    match reply
    case ReviewerError => Failure
    case Answer(text) =>
      var d := NormalizeDecision(text);
      if d.None? then Gibberish else Said(d.value)
  }

  // ----- the session as a value -----

  /** The state of a session, with the operations the reviewer has been shown. */
  datatype State = State(mode: PromptMode, skipAll: bool, shown: seq<PlanOperation>)

  datatype Verdict = Accepted | Skipped | Stopped(error: ReviewError)

  predicate Prompts(s: State, op: PlanOperation) {
    !s.skipAll && ShouldPrompt(s.mode, op)
  }

  function Decided(s: State, policy: Option<Policy>, op: PlanOperation): (State, Verdict) {
    if s.skipAll then (s, Skipped)
    else if !ShouldPrompt(s.mode, op) then (s, Accepted)
    else if policy.None? then (s, Stopped(NoReviewer))
    else
      var next := s.(shown := s.shown + [op]);
      match policy.value(next.shown)
      case Failure => (next, Stopped(ReviewerFailed))
      case Gibberish => (next, Stopped(UnsupportedDecision))
      case Said(Accept) => (next, Accepted)
      case Said(Skip) => (next, Skipped)
      case Said(AcceptAll) => (next.(mode := Never), Accepted)
      case Said(SkipAll) => (next.(skipAll := true), Skipped)
  }

  /** The reviewer is to be asked: prompting is on for everything, or for what needs approval and this does. */
  predicate Asked(s: State, op: PlanOperation) {
    !s.skipAll && (s.mode == All || (s.mode == Required && op.risk == RequiresApproval))
  }

  /** What the reviewer's reply says about the operation, if there is a reviewer. */
  predicate Hears(s: State, policy: Option<Policy>, op: PlanOperation, word: Word) {
    policy.Some? && policy.value(s.shown + [op]) == word
  }

  /** When an operation is accepted, skipped, or stops the session. */
  lemma {:induction false} VerdictTable(s: State, policy: Option<Policy>, op: PlanOperation)
    ensures var v := Decided(s, policy, op).1;
      && (v == Accepted <==>
          !s.skipAll && (Asked(s, op) ==> Hears(s, policy, op, Said(Accept)) || Hears(s, policy, op, Said(AcceptAll))))
      && (v == Skipped <==>
          s.skipAll || (Asked(s, op) && (Hears(s, policy, op, Said(Skip)) || Hears(s, policy, op, Said(SkipAll)))))
      && (v == Stopped(NoReviewer) <==> Asked(s, op) && policy.None?)
      && (v == Stopped(ReviewerFailed) <==> Asked(s, op) && Hears(s, policy, op, Failure))
      && (v == Stopped(UnsupportedDecision) <==> Asked(s, op) && Hears(s, policy, op, Gibberish))
    ensures var next := Decided(s, policy, op).0;
      && next.mode == (if Asked(s, op) && Hears(s, policy, op, Said(AcceptAll)) then Never else s.mode)
      && (next.skipAll <==> s.skipAll || (Asked(s, op) && Hears(s, policy, op, Said(SkipAll))))
      && next.shown == if Asked(s, op) && policy.Some? then s.shown + [op] else s.shown
  {
  }

  /** What the session makes of a reply. */
  lemma {:induction false} ReplyHeard(reply: Reply, d: Decision)
    ensures Heard(reply) == Failure <==> reply.ReviewerError?
    ensures Heard(reply) == Said(d) <==>
            reply.Answer? && exists word | word in DecisionWords(d) :: SaysWord(reply.text, word)
  {
    if reply.Answer? {
      DecisionsRead(reply.text, d);
    }
  }

  /** The state after a list of operations, none of which stopped the session. */
  function After(s: State, policy: Option<Policy>, ops: seq<PlanOperation>): State {
    if ops == [] then s
    else
      var n := |ops| - 1;
      Decided(After(s, policy, ops[..n]), policy, ops[n]).0
  }

  function VerdictAt(s: State, policy: Option<Policy>, ops: seq<PlanOperation>, i: nat): Verdict
    requires i < |ops|
  {
    Decided(After(s, policy, ops[..i]), policy, ops[i]).1
  }

  /** All the operations were decided without an error. */
  predicate Undisturbed(s: State, policy: Option<Policy>, ops: seq<PlanOperation>) {
    if ops == [] then true
    else
      var n := |ops| - 1;
      Undisturbed(s, policy, ops[..n]) && !VerdictAt(s, policy, ops, n).Stopped?
  }

  /** The reviewer was asked about operation i and gave this decision. */
  predicate SaidAt(s: State, policy: Option<Policy>, ops: seq<PlanOperation>, i: nat, d: Decision)
    requires i < |ops|
  {
    var before := After(s, policy, ops[..i]);
    Prompts(before, ops[i]) && policy.Some? && policy.value(before.shown + [ops[i]]) == Said(d)
  }

  // ----- the imperative session -----

  class Reviewer {
    const answers: seq<PlanOperation> -> Reply
    var shown: seq<PlanOperation>

    constructor (answers: seq<PlanOperation> -> Reply)
      ensures this.answers == answers && shown == []
    {
      this.answers := answers;
      shown := [];
    }

    ghost function ThePolicy(): Policy {
      (history: seq<PlanOperation>) => Heard(answers(history))
    }

    method Review(op: PlanOperation) returns (reply: Reply)
      modifies this
      ensures shown == old(shown) + [op]
      ensures Heard(reply) == ThePolicy()(shown)
    {
      shown := shown + [op];
      reply := answers(shown);
    }
  }

  ghost function PolicyOf(reviewer: Reviewer?): Option<Policy> {
    if reviewer == null then None else Some(reviewer.ThePolicy())
  }

  function ShownTo(reviewer: Reviewer?): seq<PlanOperation>
    reads reviewer
  {
    if reviewer == null then [] else reviewer.shown
  }

  function Start(mode: PromptMode, shown: seq<PlanOperation>): State {
    State(mode, false, shown)
  }

  class Session {
    var mode: PromptMode
    const reviewer: Reviewer?
    var skipAll: bool

    constructor (mode: PromptMode, reviewer: Reviewer?)
      ensures this.reviewer == reviewer && View() == Start(mode, ShownTo(reviewer))
    {
      this.mode, this.reviewer, this.skipAll := mode, reviewer, false;
    }

    function View(): State
      reads this, reviewer
    {
      State(mode, skipAll, ShownTo(reviewer))
    }

    method Decide(op: PlanOperation) returns (r: Result<Decision, ReviewError>)
      modifies this, reviewer
      ensures (View(), if r.Ok? then (if r.value == Accept then Accepted else Skipped) else Stopped(r.error)) ==
              Decided(old(View()), PolicyOf(reviewer), op)
      ensures r.Ok? ==> r.value in [Accept, Skip]
    {
      if skipAll {
        return Ok(Skip);
      }
      if !ShouldPrompt(mode, op) {
        return Ok(Accept);
      }
      if reviewer == null {
        return Err(NoReviewer);
      }
      var reply := reviewer.Review(op);
      match Heard(reply) {
        case Failure => r := Err(ReviewerFailed);
        case Gibberish => r := Err(UnsupportedDecision);
        case Said(AcceptAll) => mode := Never; r := Ok(Accept);
        case Said(SkipAll) => skipAll := true; r := Ok(Skip);
        case Said(d) => r := Ok(d);
      }
    }
  }

  /** The operations that a session accepts, in order. */
  function AcceptedOf(s: State, policy: Option<Policy>, ops: seq<PlanOperation>): seq<PlanOperation> {
    if ops == [] then []
    else
      var n := |ops| - 1;
      AcceptedOf(s, policy, ops[..n]) + if VerdictAt(s, policy, ops, n).Accepted? then [ops[n]] else []
  }

  datatype ReviewResult = ReviewResult(plan: SyncPlan, accepted: nat, skipped: nat)

  /** Review: the whole plan is reviewed before anything is applied. */
  method ReviewPlan(plan: SyncPlan, modeText: string, reviewer: Reviewer?)
    returns (r: Result<ReviewResult, ReviewError>)
    modifies reviewer
    ensures ParseMode(modeText).None? ==> r == Err(UnsupportedPromptMode)
    ensures ParseMode(modeText).Some? ==>
      var s := Start(ParseMode(modeText).value, old(ShownTo(reviewer)));
      && (r.Ok? <==> Undisturbed(s, PolicyOf(reviewer), plan.operations))
      && (r.Ok? ==>
            && r.value.plan == plan.(operations := AcceptedOf(s, PolicyOf(reviewer), plan.operations))
            && r.value.accepted == |r.value.plan.operations|
            && r.value.accepted + r.value.skipped == |plan.operations|)
  {
    var mode := ParseMode(modeText);
    if mode.None? {
      return Err(UnsupportedPromptMode);
    }
    var session := new Session(mode.value, reviewer);
    r := ReviewAll(plan, session);
  }

  /** The loop of Review. */
  method ReviewAll(plan: SyncPlan, session: Session) returns (r: Result<ReviewResult, ReviewError>)
    modifies session, session.reviewer
    ensures r.Ok? <==>
              Undisturbed(old(session.View()), PolicyOf(session.reviewer), plan.operations)
    ensures r.Ok? ==>
      && r.value.plan ==
           plan.(operations := AcceptedOf(old(session.View()), PolicyOf(session.reviewer), plan.operations))
      && r.value.accepted == |r.value.plan.operations|
      && r.value.accepted + r.value.skipped == |plan.operations|
  {
    ghost var s, policy := session.View(), PolicyOf(session.reviewer);
    var ops := plan.operations;
    var accepted: seq<PlanOperation>, skipped := [], 0;
    for k := 0 to |ops|
      invariant session.View() == After(s, policy, ops[..k])
      invariant Undisturbed(s, policy, ops[..k])
      invariant accepted == AcceptedOf(s, policy, ops[..k])
      invariant |accepted| + skipped == k
    {
      SnocSteps(s, policy, ops, k);
      var decision := session.Decide(ops[k]);
      if decision.Err? {
        DisturbedOnce(s, policy, ops, k + 1);
        return Err(decision.error);
      }
      if decision.value == Accept {
        accepted := accepted + [ops[k]];
      } else {
        skipped := skipped + 1;
      }
    }
    assert ops[..|ops|] == ops;
    r := Ok(ReviewResult(plan.(operations := accepted), |accepted|, skipped));
  }

  lemma {:induction false} SnocSteps(s: State, policy: Option<Policy>, ops: seq<PlanOperation>, k: nat)
    requires k < |ops|
    ensures var step := Decided(After(s, policy, ops[..k]), policy, ops[k]);
            && step.1 == VerdictAt(s, policy, ops, k)
            && After(s, policy, ops[..k + 1]) == step.0
            && (Undisturbed(s, policy, ops[..k + 1]) <==> Undisturbed(s, policy, ops[..k]) && !step.1.Stopped?)
            && AcceptedOf(s, policy, ops[..k + 1]) ==
                 AcceptedOf(s, policy, ops[..k]) + if step.1.Accepted? then [ops[k]] else []
  {
    assert ops[..k + 1][..k] == ops[..k];
  }

  lemma {:induction false} DisturbedOnce(s: State, policy: Option<Policy>, ops: seq<PlanOperation>, k: nat)
    requires k <= |ops| && !Undisturbed(s, policy, ops[..k])
    ensures !Undisturbed(s, policy, ops)
    decreases |ops| - k
  {
    if k == |ops| {
      assert ops[..k] == ops;
    } else {
      SnocSteps(s, policy, ops, k);
      DisturbedOnce(s, policy, ops, k + 1);
    }
  }

  // ----- whole runs of a session -----

  /** Once every remaining prompt is settled, the session never changes again. */
  lemma {:induction false} SettledStays(s: State, policy: Option<Policy>, ops: seq<PlanOperation>, i: nat, j: nat)
    requires i <= j <= |ops|
    requires var m := After(s, policy, ops[..i]); m.skipAll || m.mode == Never
    ensures After(s, policy, ops[..j]) == After(s, policy, ops[..i])
    decreases j
  {
    if i < j {
      SettledStays(s, policy, ops, i, j - 1);
      SnocSteps(s, policy, ops, j - 1);
    }
  }

  /** After either "all" answer no later operation is prompted, and all of them share one fate. */
  lemma {:induction false} AllAnswerSettles(
    s: State, policy: Option<Policy>, ops: seq<PlanOperation>, i: nat, j: nat, d: Decision)
    requires i < j < |ops| && d in [AcceptAll, SkipAll] && SaidAt(s, policy, ops, i, d)
    ensures !Prompts(After(s, policy, ops[..j]), ops[j])
    ensures VerdictAt(s, policy, ops, j) == if d == AcceptAll then Accepted else Skipped
  {
    SnocSteps(s, policy, ops, i);
    SettledStays(s, policy, ops, i + 1, j);
  }

  /** One step: only an "all" answer at this operation changes the mode or sets the flag. */
  lemma {:induction false} StepChange(s: State, policy: Option<Policy>, ops: seq<PlanOperation>, k: nat)
    requires k < |ops|
    ensures var m, n := After(s, policy, ops[..k]), After(s, policy, ops[..k + 1]);
            && n.mode == (if SaidAt(s, policy, ops, k, AcceptAll) then Never else m.mode)
            && (n.skipAll <==> m.skipAll || SaidAt(s, policy, ops, k, SkipAll))
  {
    SnocSteps(s, policy, ops, k);
  }

  /** A session is in another mode than it started in only after an accept-all. */
  lemma {:induction false} ModeChanged(
    s: State, policy: Option<Policy>, ops: seq<PlanOperation>, k: nat) returns (j: nat)
    requires k <= |ops| && After(s, policy, ops[..k]).mode != s.mode
    ensures j < k && SaidAt(s, policy, ops, j, AcceptAll)
    ensures After(s, policy, ops[..k]).mode == Never
  {
    if k == 0 {
      assert false;
    } else {
      StepChange(s, policy, ops, k - 1);
      if SaidAt(s, policy, ops, k - 1, AcceptAll) {
        j := k - 1;
      } else {
        j := ModeChanged(s, policy, ops, k - 1);
      }
    }
  }

  /** While the flag is down there has been no skip-all. */
  lemma {:induction false} NoSkipAllYet(s: State, policy: Option<Policy>, ops: seq<PlanOperation>, k: nat, j: nat)
    requires j < k <= |ops| && !After(s, policy, ops[..k]).skipAll
    ensures !SaidAt(s, policy, ops, j, SkipAll)
    decreases k
  {
    StepChange(s, policy, ops, k - 1);
    if j < k - 1 {
      NoSkipAllYet(s, policy, ops, k - 1, j);
    }
  }

  /** An operation that needs approval, or any operation when all are prompted, gets through only on the reviewer's
      word: accepted itself, or covered by an accept-all at it or earlier, and with no skip-all at it or earlier. */
  lemma {:induction false} ApprovalSafety(s: State, policy: Option<Policy>, ops: seq<PlanOperation>, i: nat)
    requires i < |ops| && s.mode != Never && (s.mode == All || ops[i].risk == RequiresApproval)
    requires VerdictAt(s, policy, ops, i).Accepted?
    ensures SaidAt(s, policy, ops, i, Accept) || exists j | 0 <= j <= i :: SaidAt(s, policy, ops, j, AcceptAll)
    ensures forall j | 0 <= j <= i :: !SaidAt(s, policy, ops, j, SkipAll)
  {
    var m := After(s, policy, ops[..i]);
    if m.mode != s.mode {
      var j := ModeChanged(s, policy, ops, i);
      assert SaidAt(s, policy, ops, j, AcceptAll);
    } else if policy.value(m.shown + [ops[i]]) == Said(AcceptAll) {
      assert SaidAt(s, policy, ops, i, AcceptAll);
    }
    forall j | 0 <= j <= i ensures !SaidAt(s, policy, ops, j, SkipAll) {
      if j < i {
        NoSkipAllYet(s, policy, ops, i, j);
      }
    }
  }

  /** Without a reviewer, nothing that needs approval gets through unless prompting is off. */
  lemma {:induction false} NoReviewerNoApproval(s: State, ops: seq<PlanOperation>, i: nat)
    requires i < |ops| && s.mode != Never && ops[i].risk == RequiresApproval
    ensures !VerdictAt(s, None, ops, i).Accepted?
  {
    if VerdictAt(s, None, ops, i).Accepted? {
      ApprovalSafety(s, None, ops, i);
    }
  }
}
