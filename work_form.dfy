/** The session engine of the work form: building a request from the draft,
    settling a request into the result store, mirroring edits into the draft,
    and replaying a shared link once. The network call itself is outside the
    model: a request settles with `Some(response)`, or with `None` when it
    throws (transport failure, unparseable body). */
module WorkForm {
  import opened Wrappers
  import opened Text
  import opened Proxies
  import opened Validation
  import opened ShareLink

  /** The body the service answers with. */
  datatype Response = Response(
    prefix: string, initialSymbol: string, resultantGrammar: string, initialGrammar: string,
    sentence: string, images: seq<Image>, isIn: bool)

  /** The body posted to the service: the grammar as its lines. */
  datatype PostData = PostData(grammar: seq<string>, initialSymbol: string, prefix: string, sentence: string)

  /** The toast a settled request shows: "Work done! Check the results." or
      "Something went wrong.". */
  datatype Notice = WorkDone | SomethingWentWrong

  /** The request for a draft: the grammar split on every newline, the other
      fields as they are. No line is dropped, so the lines joined again give
      the grammar back. */
  function RequestOf(d: GrammarDraft): (p: PostData)
    ensures Join(p.grammar, '\n') == d.grammar
    ensures |p.grammar| == Count(d.grammar, '\n') + 1
    ensures forall i :: 0 <= i < |p.grammar| ==> '\n' !in p.grammar[i]
    ensures p.initialSymbol == d.initialSymbol && p.prefix == d.prefix && p.sentence == d.sentence
  {
    JoinSplit(d.grammar, '\n');
    SplitCount(d.grammar, '\n');
    PostData(Split(d.grammar, '\n'), d.initialSymbol, d.prefix, d.sentence)
  }

  /** The submit action: the form hands the values on only when the whole
      schema holds. */
  function OnSubmit(d: GrammarDraft): (r: Option<PostData>)
    ensures r.Some? <==> DraftValid(d)
    ensures r.Some? ==> r.value == RequestOf(d)
  {
    if DraftValid(d) then Some(RequestOf(d)) else None
  }

  /** The result store after one request settles: a response replaces the
      seven fields it carries, a failure changes nothing. */
  function Settle(r: ParseResult, outcome: Option<Response>): ParseResult
  {
    match outcome
    case None => r
    case Some(x) =>
      r.(prefix := x.prefix, initialSymbol := x.initialSymbol,
         resultantGrammar := x.resultantGrammar, initialGrammar := x.initialGrammar,
         sentence := x.sentence, images := x.images, isIn := Some(x.isIn))
  }

  /** Requests settling one after another, in arrival order. */
  function SettleAll(r: ParseResult, outcomes: seq<Option<Response>>): ParseResult
  {
    if outcomes == [] then r
    else Settle(SettleAll(r, outcomes[..|outcomes| - 1]), outcomes[|outcomes| - 1])
  }

  /** The response that arrived last, if any request succeeded. */
  function LastResponse(outcomes: seq<Option<Response>>): (last: Option<Response>)
    ensures last.Some? <==> exists i :: 0 <= i < |outcomes| && outcomes[i].Some?
    ensures last.Some? ==> last in outcomes
  {
    if outcomes == [] then None
    else if outcomes[|outcomes| - 1].Some? then outcomes[|outcomes| - 1]
    else LastResponse(outcomes[..|outcomes| - 1])
  }

  /** A successful response fixes the seven fields it carries and nothing
      else; a failed request leaves the store as it was. */
  lemma SettleReplacesSevenFields(r: ParseResult, outcome: Option<Response>)
    ensures outcome.None? ==> Settle(r, outcome) == r
    ensures outcome.Some? ==>
      var s, x := Settle(r, outcome), outcome.value;
      s.prefix == x.prefix && s.initialSymbol == x.initialSymbol
      && s.resultantGrammar == x.resultantGrammar && s.initialGrammar == x.initialGrammar
      && s.sentence == x.sentence && s.images == x.images && s.isIn == Some(x.isIn)
      && s.took == r.took
  {
  }

  /** Last writer wins: whatever arrived before the last successful response
      is invisible afterwards, and failures never erase a result. */
  lemma {:induction false} LastWriterWins(r: ParseResult, outcomes: seq<Option<Response>>)
    ensures SettleAll(r, outcomes) == Settle(r, LastResponse(outcomes))
  {
    if outcomes != [] {
      var init := outcomes[..|outcomes| - 1];
      LastWriterWins(r, init);
      if outcomes[|outcomes| - 1].None? {
        assert LastResponse(outcomes) == LastResponse(init);
      }
    }
  }

  /** Starting from the initial store, `took` is never written and stays 0,
      and `isIn` stays unset exactly as long as no request has succeeded. */
  lemma SessionResults(outcomes: seq<Option<Response>>)
    ensures SettleAll(INITIAL_RESULT, outcomes).took == 0.0
    ensures SettleAll(INITIAL_RESULT, outcomes).isIn == None <==>
      forall i :: 0 <= i < |outcomes| ==> outcomes[i].None?
  {
    LastWriterWins(INITIAL_RESULT, outcomes);
  }

  datatype ReplayOutcome =
    | Skipped
    | DecodeFailed
    | Submitted(values: GrammarDraft, request: PostData)

  /** What the mount effect does: nothing unless the replay flag is up and
      the address holds a link; a link that does not decode throws; otherwise
      the decoded values are submitted as they are, without the schema. */
  function ReplayDecision(firstTime: bool, q: Query): ReplayOutcome
  {
    match RetrieveDraft(q)
    case NoLink => Skipped
    case Malformed => if firstTime then DecodeFailed else Skipped
    case Retrieved(d) => if firstTime then Submitted(d, RequestOf(d)) else Skipped
  }

  /** Replaying a link made by the share action submits exactly what pressing
      Send on the same draft submits, if and only if no field is empty; a link
      with an empty field is ignored. */
  lemma SharedLinkReplays(d: GrammarDraft, url: Query)
    requires DraftValid(d)
    ensures OnShare(d, url).Some? && OnSubmit(d).Some?
    ensures ReplayDecision(true, OnShare(d, url).value)
      == if AllFieldsNonEmpty(d) then Submitted(d, OnSubmit(d).value) else Skipped
  {
    LinkRetrieval(d, url);
  }

  /** A valid draft whose prefix is empty cannot be shared: its link is never
      replayed. */
  lemma EmptyPrefixLinkIgnored(url: Query)
    ensures DraftValid(GrammarDraft("S -> a", "S", "", "a"))
    ensures ReplayDecision(true, OnShare(GrammarDraft("S -> a", "S", "", "a"), url).value) == Skipped
  {
    var d := GrammarDraft("S -> a", "S", "", "a");
    GrammarValidBmp(d.grammar);
    SymbolValidSingle(d.initialSymbol);
    SentenceValidIff(d.sentence);
    SharedLinkReplays(d, url);
  }

  /** Replay does not consult the schema: any draft without empty fields,
      valid or not, is submitted from its link. */
  lemma ReplaySkipsValidation(d: GrammarDraft, url: Query)
    requires AllFieldsNonEmpty(d)
    ensures ReplayDecision(true, LinkQuery(d, url)) == Submitted(d, RequestOf(d))
  {
    LinkRetrieval(d, url);
  }

  /** Once the flag is down no address triggers anything. */
  lemma ReplayNeedsFlag(q: Query)
    ensures ReplayDecision(false, q) == Skipped
  {
  }

  /** The work form component, holding the three stores it uses. Its form
      values and the draft store are kept equal by the mirroring effects, so
      the draft store stands for both. */
  class WorkForm {
    const interaction: Interaction
    const draft: DraftStore
    const results: ResultStore

    constructor (interaction: Interaction, draft: DraftStore, results: ResultStore)
      ensures this.interaction == interaction && this.draft == draft && this.results == results
    {
      this.interaction := interaction;
      this.draft := draft;
      this.results := results;
    }

    /** An edit of one field, mirrored into the draft store. */
    method SetDraftField(f: Field, v: string)
      modifies draft
      ensures draft.Snapshot() == old(draft.Snapshot()).With(f, v)
    {
      match f
      case Grammar => draft.grammar := v;
      case InitialSymbol => draft.initialSymbol := v;
      case Prefix => draft.prefix := v;
      case Sentence => draft.sentence := v;
    }

    /** The end of a request: on a response the seven fields are assigned one
        by one; on a failure nothing is written. */
    method ApplyResponse(outcome: Option<Response>) returns (notice: Notice)
      modifies results
      ensures results.Snapshot() == Settle(old(results.Snapshot()), outcome)
      ensures notice == if outcome.Some? then WorkDone else SomethingWentWrong
    {
      match outcome {
        case None =>
          notice := SomethingWentWrong;
        case Some(x) =>
          results.prefix := x.prefix;
          results.initialSymbol := x.initialSymbol;
          results.resultantGrammar := x.resultantGrammar;
          results.initialGrammar := x.initialGrammar;
          results.sentence := x.sentence;
          results.images := x.images;
          results.isIn := Some(x.isIn);
          notice := WorkDone;
      }
    }

    /** The mount effect. When a link is replayed its request is returned (to
        be settled by `ApplyResponse`), the draft is overwritten with the
        decoded values and the flag goes down for good; otherwise nothing
        changes. */
    method Replay(q: Query) returns (outcome: ReplayOutcome)
      modifies interaction, draft
      ensures outcome == ReplayDecision(old(interaction.firstTimeRetrieveURL), q)
      ensures outcome.Submitted? ==> draft.Snapshot() == outcome.values && !interaction.firstTimeRetrieveURL
      ensures !outcome.Submitted? ==>
        draft.Snapshot() == old(draft.Snapshot())
        && interaction.firstTimeRetrieveURL == old(interaction.firstTimeRetrieveURL)
    {
      var grammar := Param(q, "grammar");
      var initialSymbol := Param(q, "initialSymbol");
      var prefix := Param(q, "prefix");
      var sentence := Param(q, "sentence");
      if !(Truthy(grammar) && Truthy(initialSymbol) && Truthy(prefix) && Truthy(sentence)
           && interaction.firstTimeRetrieveURL) {
        return Skipped;
      }
      var g := DecodeParam(grammar.value);
      var i := DecodeParam(initialSymbol.value);
      var p := DecodeParam(prefix.value);
      var s := DecodeParam(sentence.value);
      if g.None? || i.None? || p.None? || s.None? {
        return DecodeFailed;
      }
      var values := GrammarDraft(g.value, i.value, p.value, s.value);
      var request := RequestOf(values);
      draft.grammar := g.value;
      draft.initialSymbol := i.value;
      draft.prefix := p.value;
      draft.sentence := s.value;
      interaction.firstTimeRetrieveURL := false;
      outcome := Submitted(values, request);
    }

    /** The effect run on two mounts in one session, each after its own
        render: the first run decides as `Replay` does, and at most one of the
        two runs submits anything. */
    method ReplayTwice(q: Query) returns (first: ReplayOutcome, second: ReplayOutcome)
      modifies interaction, draft
      ensures first == ReplayDecision(old(interaction.firstTimeRetrieveURL), q)
      ensures second == if first.Submitted? then Skipped else first
      ensures !(first.Submitted? && second.Submitted?)
      ensures first.Submitted? ==> second == Skipped && draft.Snapshot() == first.values
    {
      first := Replay(q);
      second := Replay(q);
    }
  }
}
