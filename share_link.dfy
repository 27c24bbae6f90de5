/** The shareable link: each field travels as a query parameter holding
    `btoa(encodeURIComponent(value))`, and is read back with
    `decodeURIComponent(atob(parameter))`. The query is modelled as a map
    from parameter name to value; its own serialisation is not. */
module ShareLink {
  import opened Wrappers
  import opened UriCodec
  import opened Base64
  import opened Proxies
  import opened Validation

  type Query = map<string, string>

  /** `decodeURIComponent(atob(p))`; None when either step throws. */
  function DecodeParam(p: string): Option<string>
  {
    match Atob(p)
    case None => None
    case Some(t) => DecodeURIComponent(t)
  }

  /** `btoa(encodeURIComponent(v))`. Neither step can throw here: a Dafny
      string has no lone surrogate, and the percent-encoded text is ASCII.
      Decoding gives the value back, and the parameter is empty exactly when
      the value is. */
  function EncodeParam(v: string): (p: string)
    ensures DecodeParam(p) == Some(v)
    ensures p == [] <==> v == []
  {
    var e := EncodeURIComponent(v);
    AtobBtoa(e);
    DecodeEncodeURIComponent(v);
    Btoa(e).value
  }

  /** Four `searchParams.set` calls: the named parameters written over the
      current ones, every other parameter kept. */
  function SetParams(url: Query, g: string, i: string, p: string, s: string): (q: Query)
    ensures q.Keys == url.Keys + {"grammar", "initialSymbol", "prefix", "sentence"}
    ensures q["grammar"] == g && q["initialSymbol"] == i && q["prefix"] == p && q["sentence"] == s
    ensures forall k :: k in url && k !in {"grammar", "initialSymbol", "prefix", "sentence"} ==> q[k] == url[k]
  {
    url["grammar" := g]["initialSymbol" := i]["prefix" := p]["sentence" := s]
  }

  /** The link the share action writes: each field under its own name. */
  function LinkQuery(d: GrammarDraft, url: Query): (q: Query)
    ensures q.Keys == url.Keys + {"grammar", "initialSymbol", "prefix", "sentence"}
    ensures DecodeParam(q["grammar"]) == Some(d.grammar)
    ensures DecodeParam(q["initialSymbol"]) == Some(d.initialSymbol)
    ensures DecodeParam(q["prefix"]) == Some(d.prefix)
    ensures DecodeParam(q["sentence"]) == Some(d.sentence)
  {
    SetParams(url, EncodeParam(d.grammar), EncodeParam(d.initialSymbol),
      EncodeParam(d.prefix), EncodeParam(d.sentence))
  }

  /** The share action: the form only runs it when every field is valid, and
      then produces the link. */
  function OnShare(d: GrammarDraft, url: Query): (r: Option<Query>)
    ensures r.Some? <==> DraftValid(d)
    ensures r.Some? ==> r.value == LinkQuery(d, url)
  {
    if DraftValid(d) then Some(LinkQuery(d, url)) else None
  }

  /** The share action refuses a sentence with an upper-case letter. */
  lemma ShareGateExample(url: Query)
    ensures OnShare(GrammarDraft("S -> a", "S", "X", "Abc"), url) == None
  {
    SentenceValidIff("Abc");
  }

  /** `searchParams.get`: None stands for `null`. */
  function Param(q: Query, name: string): Option<string>
  {
    if name in q then Some(q[name]) else None
  }

  /** JavaScript truthiness of a parameter: present and not empty. */
  predicate Truthy(p: Option<string>)
  {
    p.Some? && p.value != ""
  }

  datatype Retrieval = NoLink | Malformed | Retrieved(draft: GrammarDraft)

  /** What the mount effect finds in the address: no link unless all four
      parameters are truthy; otherwise the decoded draft, or Malformed when a
      decode throws. */
  function RetrieveDraft(q: Query): Retrieval
  {
    var grammar := Param(q, "grammar");
    var initialSymbol := Param(q, "initialSymbol");
    var prefix := Param(q, "prefix");
    var sentence := Param(q, "sentence");
    if !(Truthy(grammar) && Truthy(initialSymbol) && Truthy(prefix) && Truthy(sentence)) then NoLink
    else
      match (DecodeParam(grammar.value), DecodeParam(initialSymbol.value),
             DecodeParam(prefix.value), DecodeParam(sentence.value))
      case (Some(g), Some(i), Some(p), Some(s)) => Retrieved(GrammarDraft(g, i, p, s))
      case _ => Malformed
  }

  predicate AllFieldsNonEmpty(d: GrammarDraft)
  {
    d.grammar != [] && d.initialSymbol != [] && d.prefix != [] && d.sentence != []
  }

  /** A link gives back the draft it was made from exactly when no field of
      that draft is empty; a link with an empty field is not recognised as a
      link at all. */
  lemma LinkRetrieval(d: GrammarDraft, url: Query)
    ensures RetrieveDraft(LinkQuery(d, url)) == if AllFieldsNonEmpty(d) then Retrieved(d) else NoLink
  {
    var q := LinkQuery(d, url);
    assert q["grammar"] == EncodeParam(d.grammar);
    assert q["initialSymbol"] == EncodeParam(d.initialSymbol);
    assert q["prefix"] == EncodeParam(d.prefix);
    assert q["sentence"] == EncodeParam(d.sentence);
  }
}
