/** The field rules of the form schema. Lengths are JavaScript lengths
    (UTF-16 code units) and case mapping is ASCII. */
module Validation {
  import opened Text
  import opened Proxies

  /** The grammar: at least five code units; nothing is trimmed. */
  predicate GrammarValid(s: string)
  {
    Utf16Length(s) >= 5
  }

  /** The rule shared by the initial symbol and the prefix: a string of length
      1 must equal its upper-case form and contain a letter A-Z; any other
      string must consist of A-Z and 0-9 only. */
  predicate SymbolValid(s: string)
  {
    if Utf16Length(s) == 1 then
      s == ToUpper(s) && exists i :: 0 <= i < |s| && IsAsciiUpper(s[i])
    else
      forall i :: 0 <= i < |s| ==> IsAsciiUpper(s[i]) || IsDigit(s[i])
  }

  /** The sentence: at least one code unit, and equal to its lower-case form. */
  predicate SentenceValid(s: string)
  {
    Utf16Length(s) >= 1 && s == ToLower(s)
  }

  /** The rule the schema attaches to each field. */
  predicate FieldValid(f: Field, v: string)
  {
    match f
    case Grammar => GrammarValid(v)
    case InitialSymbol => SymbolValid(v)
    case Prefix => SymbolValid(v)
    case Sentence => SentenceValid(v)
  }

  /** The whole schema: submitting and sharing both need every field valid. */
  predicate DraftValid(d: GrammarDraft)
  {
    FieldValid(Grammar, d.grammar) && FieldValid(InitialSymbol, d.initialSymbol)
    && FieldValid(Prefix, d.prefix) && FieldValid(Sentence, d.sentence)
  }

  /** For text in the Basic Multilingual Plane the grammar rule is a plain
      character count of at least five. */
  lemma GrammarValidBmp(s: string)
    requires forall i :: 0 <= i < |s| ==> s[i] as int <= 0xFFFF
    ensures GrammarValid(s) <==> |s| >= 5
  {
    Utf16LengthBmp(s);
  }

  /** The rule counts raw characters, so blanks count too. */
  lemma GrammarExamples()
    ensures !GrammarValid("S->a")
    ensures GrammarValid("S -> a")
    ensures GrammarValid("     ")
  {
    GrammarValidBmp("S->a");
    GrammarValidBmp("S -> a");
    GrammarValidBmp("     ");
  }

  /** A valid symbol is a string of upper-case letters and digits which, when
      it is a single character, is a letter; in particular the empty string is
      valid. */
  lemma SymbolValidIff(s: string)
    ensures SymbolValid(s) <==>
      (forall i :: 0 <= i < |s| ==> IsAsciiUpper(s[i]) || IsDigit(s[i]))
      && (|s| == 1 ==> IsAsciiUpper(s[0]))
  {
    Utf16LengthOne(s);
    if Utf16Length(s) == 1 && IsAsciiUpper(s[0]) {
      assert ToUpper(s) == [ToUpperChar(s[0])] + ToUpper(s[1..]);
    }
  }

  /** A one-character symbol is valid exactly when it is a letter A-Z. */
  lemma SymbolValidSingle(s: string)
    requires |s| == 1
    ensures SymbolValid(s) <==> IsAsciiUpper(s[0])
  {
    SymbolValidIff(s);
  }

  lemma SymbolExamples()
    ensures SymbolValid("A") && !SymbolValid("a") && !SymbolValid("1")
    ensures SymbolValid("AB12") && !SymbolValid("ab") && SymbolValid("")
  {
    SymbolValidSingle("A");
    SymbolValidSingle("a");
    SymbolValidSingle("1");
    SymbolValidIff("AB12");
    SymbolValidIff("ab");
  }

  /** The prefix is checked by exactly the initial symbol's rule. This holds
      by construction of `FieldValid`: the source writes the two checks as two
      closures of identical text, and the model gives both fields the one
      predicate `SymbolValid`. */
  lemma PrefixRuleIsInitialSymbolRule(v: string)
    ensures FieldValid(Prefix, v) == FieldValid(InitialSymbol, v)
  {
  }

  /** A valid sentence is a non-empty string without upper-case letters. */
  lemma SentenceValidIff(s: string)
    ensures SentenceValid(s) <==> s != [] && forall i :: 0 <= i < |s| ==> !IsAsciiUpper(s[i])
  {
    LowerFixedIffNoUpper(s);
  }

  lemma SentenceExamples()
    ensures SentenceValid("abc") && !SentenceValid("Abc") && !SentenceValid("")
  {
    SentenceValidIff("abc");
    SentenceValidIff("Abc");
  }
}
