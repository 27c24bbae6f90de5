/** The process-wide state records of the work form: the replay guard
    (`interactionProxy`), the draft (`neoSaveProxy`) and the result store
    (`WorkFormProxy`), each a mutable object whose fields are assigned in
    place. */
module Proxies {
  import opened Wrappers

  datatype Image = Image(
    src: string, alt: string, width: real, height: real, title: string, description: string)

  /** The four fields of the form. */
  datatype Field = Grammar | InitialSymbol | Prefix | Sentence

  /** The values of the four fields, as a value. */
  datatype GrammarDraft = GrammarDraft(grammar: string, initialSymbol: string, prefix: string, sentence: string)
  {
    function Get(f: Field): string
    {
      match f
      case Grammar => grammar
      case InitialSymbol => initialSymbol
      case Prefix => prefix
      case Sentence => sentence
    }

    /** This draft with field `f` set to `v`. */
    function With(f: Field, v: string): (d: GrammarDraft)
      ensures d.Get(f) == v
      ensures forall g :: g != f ==> d.Get(g) == Get(g)
    {
      match f
      case Grammar => this.(grammar := v)
      case InitialSymbol => this.(initialSymbol := v)
      case Prefix => this.(prefix := v)
      case Sentence => this.(sentence := v)
    }
  }

  /** The contents of the result store; `isIn` is None while no result has
      arrived. */
  datatype ParseResult = ParseResult(
    prefix: string, initialSymbol: string, resultantGrammar: string, initialGrammar: string,
    sentence: string, images: seq<Image>, isIn: Option<bool>, took: real)

  const EMPTY_DRAFT := GrammarDraft("", "", "", "")

  const INITIAL_RESULT := ParseResult("", "", "", "", "", [], None, 0.0)

  /** `interactionProxy`: whether the link in the address may still be
      replayed. */
  class Interaction {
    var firstTimeRetrieveURL: bool

    constructor ()
      ensures firstTimeRetrieveURL
    {
      firstTimeRetrieveURL := true;
    }
  }

  /** `neoSaveProxy`: the draft that survives navigation. */
  class DraftStore {
    var grammar: string
    var initialSymbol: string
    var prefix: string
    var sentence: string

    function Snapshot(): GrammarDraft
      reads this
    {
      GrammarDraft(grammar, initialSymbol, prefix, sentence)
    }

    constructor ()
      ensures grammar == "" && initialSymbol == "" && prefix == "" && sentence == ""
      ensures Snapshot() == EMPTY_DRAFT
    {
      grammar, initialSymbol, prefix, sentence := "", "", "", "";
    }
  }

  /** `WorkFormProxy`: the most recent result. */
  class ResultStore {
    var prefix: string
    var initialSymbol: string
    var resultantGrammar: string
    var initialGrammar: string
    var sentence: string
    var images: seq<Image>
    var isIn: Option<bool>
    var took: real

    function Snapshot(): ParseResult
      reads this
    {
      ParseResult(prefix, initialSymbol, resultantGrammar, initialGrammar, sentence, images, isIn, took)
    }

    constructor ()
      ensures prefix == "" && initialSymbol == "" && resultantGrammar == ""
      ensures initialGrammar == "" && sentence == ""
      ensures images == [] && isIn == None && took == 0.0
      ensures Snapshot() == INITIAL_RESULT
    {
      prefix, initialSymbol, resultantGrammar, initialGrammar, sentence := "", "", "", "", "";
      images, isIn, took := [], None, 0.0;
    }
  }
}
