# Grammar work form: session engine model

This project models the client-side session engine of the grammar work
form. The user writes a context-free grammar, an initial symbol, a prefix
for new non-terminals and a sentence. The form checks them against its
schema and sends them to a remote CYK/CNF service. It keeps the answer in a
result store and can share the whole input as a link. On load it replays
such a link once.

The model has three layers.

- **Pure functions and lemmas** for the schema rules (`Validation`). They
  use JavaScript string semantics from `Text`: `length` in UTF-16 code
  units, ASCII case mapping, and `split`/`join`.
- **The link value codec.** Each parameter is
  `btoa(encodeURIComponent(v))`. `UriCodec` models the percent-encoding
  of section 19.2.6 of ECMA-262 over the UTF-8 of RFC 3629 (`Utf8`).
  `Base64` models section 4 of RFC 4648, with `atob` following the
  forgiving-base64 decode of the WHATWG Infra standard. It is proved that
  decoding gives every value back (`ShareLink.EncodeParam`).
- **Classes for the mutable records** that the source assigns in place
  (`Proxies`), and a `WorkForm` class whose methods change them:
  `SetDraftField`, `ApplyResponse` and `Replay`. Each method is tied to a
  pure function (`GrammarDraft.With`, `Settle`, `ReplayDecision`), and the
  lemmas are proved about those functions.

A request is one call that settles later. The model splits it into the
request the form builds (`RequestOf`, `OnSubmit`, or the request inside a
`Replay` outcome) and the settlement `ApplyResponse(outcome)`. Here
`outcome` is `Some(response)`, or `None` for any thrown failure.

Behaviour of the code worth knowing:

- The grammar rule counts raw length, with no trimming: five blanks pass.
- The replay guard is `firstTimeRetrieveURL`. It starts `true` whether or
  not a link is present, and only replay sets it to `false`.
- A link whose parameters do not decode makes the source throw out of the
  mount effect. Nothing is written before the throw, and the model reports
  this as `DecodeFailed` with no state change.
- Replayed values are submitted without the schema (`ReplaySkipsValidation`).
- Nothing in the code resets the result store; it is only ever written by a
  settled request.

The model also records a consequence of the code. An empty parameter is
falsy, and the schema accepts an empty initial symbol or prefix. So a valid
draft with an empty field produces a link that is never replayed
(`SharedLinkReplays`, `EmptyPrefixLinkIgnored`).

## Model

| member | source | states |
|---|---|---|
| `Text.Utf16Length` | src/components/work-form.tsx:24-26 | JavaScript length lies between the character count and twice it |
| `Text.Utf16LengthOne` | src/components/work-form.tsx:29 | `length === 1` holds exactly for a single character of the Basic Multilingual Plane |
| `Text.Utf16LengthBmp` | src/components/work-form.tsx:24 | without astral characters the JavaScript length is the character count |
| `Text.LowerFixedIffNoUpper` | src/components/work-form.tsx:63 | a string equals its lower-case form iff it has no upper-case letter |
| `Text.UpperFixedIffNoLower` | src/components/work-form.tsx:31 | a string equals its upper-case form iff it has no lower-case letter |
| `Text.Split` | src/components/work-form.tsx:159 | `split('\n')` yields at least one piece and no piece contains the separator |
| `Text.JoinSplit` | src/components/work-form.tsx:159 | joining the split pieces with the separator reproduces the grammar, empty lines included |
| `Text.SplitCount` | src/components/work-form.tsx:159 | the number of pieces is the newline count plus one |
| `Text.SplitJoin` | src/components/work-form.tsx:159 | splitting a join of separator-free pieces gives back the pieces |
| `Validation.GrammarValidBmp` | src/components/work-form.tsx:24-26 | for ordinary text the grammar is valid iff it has at least five characters |
| `Validation.GrammarExamples` | src/components/work-form.tsx:24-26 | "S->a" fails, "S -> a" passes, five blanks pass because nothing is trimmed |
| `Validation.SymbolValidIff` | src/components/work-form.tsx:27-34 | a symbol is valid iff all its characters are A-Z or 0-9 and a one-character symbol is a letter; the empty string is valid |
| `Validation.SymbolValidSingle` | src/components/work-form.tsx:29-31 | a one-character symbol is valid iff it is an upper-case letter A-Z |
| `Validation.SymbolExamples` | src/components/work-form.tsx:27-34 | "A", "AB12" and "" pass; "a", "1" and "ab" fail |
| `Validation.PrefixRuleIsInitialSymbolRule` | src/components/work-form.tsx:41-49 | the prefix is checked by exactly the initial symbol's rule |
| `Validation.SentenceValidIff` | src/components/work-form.tsx:55-68 | a sentence is valid iff it is non-empty and has no upper-case letter |
| `Validation.SentenceExamples` | src/components/work-form.tsx:55-68 | "abc" passes; "Abc" and "" fail |
| `Utf8.EncodeScalar` | src/components/work-form.tsx:175-181 | a character encodes to one to four octets, one octet exactly for ASCII |
| `Utf8.EncodeLeadingOnes` | src/components/work-form.tsx:175-181 | the lead octet announces the length and the other octets are continuation octets |
| `Utf8.DecodeEncode` | src/components/work-form.tsx:219-222 | decoding the UTF-8 form of a character gives the character back |
| `Utf8.EncodeDecode` | src/components/work-form.tsx:219-222 | every well-formed octet sequence is the unique encoding of the character it decodes to |
| `UriCodec.EncodeURIComponent` | src/components/work-form.tsx:175-181 | `encodeURIComponent` output is ASCII, and empty iff the input is |
| `UriCodec.ParseEscapesOf` | src/components/work-form.tsx:219-222 | the decoder reads back the octets of the escapes the encoder wrote |
| `UriCodec.DecodeEncodeChar` | src/components/work-form.tsx:219-222 | decoding consumes exactly the encoding of one character |
| `UriCodec.DecodeEncodeURIComponent` | src/components/work-form.tsx:175-181 | `decodeURIComponent(encodeURIComponent(v)) == v` for every string |
| `UriCodec.MalformedEscapesRejected` | src/components/work-form.tsx:219-222 | a lone "%", a non-hex escape, a truncated sequence, an overlong form and a stray continuation octet throw |
| `Base64.Sextets` | src/components/work-form.tsx:175-181 | n octets give 4(n/3) groups plus 0, 2 or 3 for the remainder |
| `Base64.FromSextetsOfSextets` | src/components/work-form.tsx:219-222 | regrouping the 6-bit groups restores the octets |
| `Base64.GroupsOfChars` | src/components/work-form.tsx:219-222 | reading the alphabet characters back gives the 6-bit groups |
| `Base64.StripPaddingOfEncoding` | src/components/work-form.tsx:219-222 | the output length is a multiple of four, and removing the padding leaves exactly the alphabet characters |
| `Base64.AtobBtoa` | src/components/work-form.tsx:175-181 | `btoa` accepts every binary string and `atob(btoa(s)) == s` |
| `ShareLink.EncodeParam` | src/components/work-form.tsx:175-181 | neither encoding step throws; `decodeURIComponent(atob(p))` gives the value back; the parameter is empty iff the value is |
| `ShareLink.SetParams` | src/components/work-form.tsx:175-181 | the four parameters are overwritten and every other parameter of the current address is kept |
| `ShareLink.LinkQuery` | src/components/work-form.tsx:174-181 | the link holds the four parameters and each one decodes to its field |
| `ShareLink.OnShare` | src/components/work-form.tsx:172-182 | a link is produced iff all four fields are valid |
| `ShareLink.ShareGateExample` | src/components/work-form.tsx:356 | sharing with the sentence "Abc" produces no link |
| `ShareLink.LinkRetrieval` | src/components/work-form.tsx:204-222 | reading a link gives back its draft iff no field is empty; otherwise the address counts as having no link |
| `Proxies.GrammarDraft.With` | src/components/work-form.tsx:246-264 | setting one field changes that field and no other |
| `Proxies.Interaction.constructor` | src/config/proxies.tsx:41-43 | the replay flag starts true |
| `Proxies.DraftStore.constructor` | src/config/proxies.tsx:51-56 | the draft starts with all four fields empty |
| `Proxies.ResultStore.constructor` | src/config/proxies.tsx:78-87 | the result store starts with five empty strings, no images, `isIn` unset and `took` 0 |
| `WorkForm.RequestOf` | src/components/work-form.tsx:158-165 | the posted lines join back to the grammar; there is one line per newline plus one; the other fields pass unchanged |
| `WorkForm.OnSubmit` | src/components/work-form.tsx:269 | a request is sent iff the whole schema holds |
| `WorkForm.LastResponse` | src/components/work-form.tsx:102-144 | a last response exists iff some request succeeded |
| `WorkForm.SettleReplacesSevenFields` | src/components/work-form.tsx:127-143 | a response overwrites exactly the seven fields and not `took`; a failure changes nothing |
| `WorkForm.LastWriterWins` | src/components/work-form.tsx:102-144 | after responses settle in arrival order, the store reflects the last successful one |
| `WorkForm.SessionResults` | src/config/proxies.tsx:74-86 | from the initial store `took` stays 0, and `isIn` stays unset iff no request has succeeded |
| `WorkForm.SharedLinkReplays` | src/components/work-form.tsx:212-229 | a shared valid draft is replayed as the same request Send would make, iff no field is empty |
| `WorkForm.EmptyPrefixLinkIgnored` | src/components/work-form.tsx:212-218 | a valid draft with an empty prefix yields a link that is never replayed |
| `WorkForm.ReplaySkipsValidation` | src/components/work-form.tsx:219-229 | a link is replayed without the schema |
| `WorkForm.ReplayNeedsFlag` | src/components/work-form.tsx:217 | with the flag down no address triggers anything |
| `WorkForm.WorkForm.SetDraftField` | src/components/work-form.tsx:246-264 | an edit writes its field into the draft and leaves the others |
| `WorkForm.WorkForm.ApplyResponse` | src/components/work-form.tsx:127-143 | the store becomes `Settle(old, outcome)`, and the notice says done or failed |
| `WorkForm.WorkForm.Replay` | src/components/work-form.tsx:204-242 | the outcome is `ReplayDecision(flag, query)`; on a replay the draft is overwritten and the flag cleared, otherwise nothing changes |
| `WorkForm.WorkForm.ReplayTwice` | src/components/work-form.tsx:212-235 | across two mounts the first run decides as `Replay` does, the second submits nothing after a submission, and at most one submits |

## Left out

- The HTTP request and JSON parsing (`fetch`, src/components/work-form.tsx:115-125) are network I/O. A request settles with an abstract `Option<Response>`. A JSON object with missing fields would write `undefined` into the store; the model does not represent that case.
- Toasts other than the settle notice, `console.log`, the clipboard write and `window.open` (src/components/work-form.tsx:135-141, 166-169, 182-201, 236-241) are UI side effects.
- The `setTimeout` delay and the scheduling of React effects are timing concerns. The form's own values and the draft store are treated as one, because the mirroring effects keep them equal and the defaults are read from the draft (src/components/work-form.tsx:147-155).
- The guard reads `firstTimeRetrieveURL` from the snapshot taken at render time (src/components/work-form.tsx:98, 217) but clears it on the live proxy (:235). The model reads and writes one live field. `Replay` and `ReplayTwice` therefore model mounts that each follow their own render. If the same effect closure runs twice with no render in between, as with React's development StrictMode, both runs see `true` and the source posts twice. The model does not capture that case.
- Overlapping requests are not interleaved. Settlements are applied one at a time in arrival order (`SettleAll`).
- The `URL`/`searchParams` serialisation of the query string is left out. A query is a map from parameter name to value.
- zod and react-hook-form internals are left out. Only the predicates they carry are modelled.
- Case mapping is ASCII only. The source would reject a sentence containing a non-ASCII capital such as "É"; the model accepts it.
- Dafny characters are Unicode scalar values, so lone surrogates cannot be expressed. On one, `encodeURIComponent` would throw a URIError.
- Image sizes and `took` are JavaScript numbers. They are modelled as `real` and never computed with.
- src/layouts/results.tsx is presentation and is not part of this model. So are `GraphsFormProxy`, `SimulateFormProxy` and `saveProxy` (src/config/proxies.tsx:30-49), which the work form does not use.
