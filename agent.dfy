/**
 * Query routing of the chat backend (backend/agent.py) and the choice of the
 * text it routes (backend/main.py): a keyword classifier picks one of the two
 * knowledge namespaces, and when the vector index cannot be queried the answer
 * stream falls back to a canned message sent word by word.
 */
module Agent {
  import opened PyStr

  const SapPack: string := "sap-pack"
  const CrmPack: string := "crm-pack"

  /** One of the SAP keywords occurs in the (already lower-cased) query. */
  predicate MentionsSap(lowered: string) {
    Contains(lowered, "sap") || Contains(lowered, "fiori") || Contains(lowered, "launchpad")
  }

  /** One of the CRM keywords occurs in the (already lower-cased) query. */
  predicate MentionsCrm(lowered: string) {
    Contains(lowered, "salesforce") || Contains(lowered, "crm") ||
    Contains(lowered, "opportunity") || Contains(lowered, "lead")
  }

  /** `classify_query`: the namespace a query is routed to. */
  function ClassifyQuery(query: string): (namespace: string)
    ensures namespace == SapPack || namespace == CrmPack
  {
    var lowered := Lower(query);
    if MentionsSap(lowered) then SapPack
    else if MentionsCrm(lowered) then CrmPack
    else SapPack
  }

  /** The complete truth table: CRM exactly when a CRM keyword occurs and no SAP keyword does. */
  lemma ClassifyTruthTable(query: string)
    ensures ClassifyQuery(query) == CrmPack <==> !MentionsSap(Lower(query)) && MentionsCrm(Lower(query))
    ensures ClassifyQuery(query) == SapPack <==> MentionsSap(Lower(query)) || !MentionsCrm(Lower(query))
  {
  }

  /** SAP keywords take precedence over CRM keywords. */
  lemma SapKeywordWins(query: string)
    requires MentionsSap(Lower(query))
    ensures ClassifyQuery(query) == SapPack
  {
  }

  /** Routing ignores letter case: a query and its lower-case form go to the same namespace. */
  lemma ClassifyIgnoresCase(query: string)
    ensures ClassifyQuery(Lower(query)) == ClassifyQuery(query)
  {
    LowerIdempotent(query);
  }

  /** Two queries that differ only in letter case go to the same namespace. */
  lemma ClassifySameLowerCase(a: string, b: string)
    requires Lower(a) == Lower(b)
    ensures ClassifyQuery(a) == ClassifyQuery(b)
  {
  }

  /** Upper-case mentions count: any query containing "SAP" is routed to the SAP pack. */
  lemma ClassifyUpperSap(before: string, after: string)
    ensures ClassifyQuery(before + "SAP" + after) == SapPack
  {
    LowerConcat(before + "SAP", after);
    LowerConcat(before, "SAP");
    assert Lower("SAP") == "sap";
    ContainsInfix(Lower(before), "sap", Lower(after));
  }

  /** A query whose only keyword is "crm" (in any case) is routed to the CRM pack. */
  lemma ClassifyCrmOnly(before: string, after: string)
    requires !MentionsSap(Lower(before + "CRM" + after))
    ensures ClassifyQuery(before + "CRM" + after) == CrmPack
  {
    LowerConcat(before + "CRM", after);
    LowerConcat(before, "CRM");
    assert Lower("CRM") == "crm";
    ContainsInfix(Lower(before), "crm", Lower(after));
  }

  /** The empty query matches no keyword and takes the default, the SAP pack. */
  lemma ClassifyEmpty()
    ensures !MentionsSap(Lower("")) && !MentionsCrm(Lower(""))
    ensures ClassifyQuery("") == SapPack
  {
    NotContainsLonger("", "sap");
    NotContainsLonger("", "fiori");
    NotContainsLonger("", "launchpad");
    NotContainsLonger("", "salesforce");
    NotContainsLonger("", "crm");
    NotContainsLonger("", "opportunity");
    NotContainsLonger("", "lead");
  }

  /** Keywords match as substrings: "asap" contains "sap". */
  lemma ClassifyAsap()
    ensures ClassifyQuery("asap") == SapPack
  {
    assert Lower("asap") == "asap";
    ContainsInfix("a", "sap", "");
  }

  lemma LowerLeader()
    ensures Lower("Leader") == "leader"
  {
  }

  lemma LeaderKeywords()
    ensures !MentionsSap("leader") && MentionsCrm("leader")
  {
    NotContainsFirstChar("leader", "sap");
    NotContainsFirstChar("leader", "fiori");
    NotContainsLonger("leader", "launchpad");
    assert "leader" == "" + "lead" + "er";
    ContainsInfix("", "lead", "er");
  }

  /** Keywords match as substrings: "Leader" contains "lead" and no SAP keyword. */
  lemma ClassifyLeader()
    ensures ClassifyQuery("Leader") == CrmPack
  {
    LowerLeader();
    LeaderKeywords();
  }

  /** `messages[-1]["content"] if messages else ""`: the text the chat endpoint routes. */
  function LastMessageContent(contents: seq<string>): (query: string)
    ensures contents != [] ==> query == contents[|contents| - 1]
    ensures contents == [] ==> query == ""
  {
    if contents == [] then "" else contents[|contents| - 1]
  }

  /** Only the last message is routed: earlier messages never change the namespace. */
  lemma RoutesLastMessage(earlier: seq<string>, other: seq<string>, last: string)
    ensures LastMessageContent(earlier + [last]) == LastMessageContent(other + [last])
    ensures ClassifyQuery(LastMessageContent(earlier + [last])) == ClassifyQuery(last)
  {
  }

  /** An empty conversation is routed to the default namespace. */
  lemma EmptyConversationRoutesToSap()
    ensures ClassifyQuery(LastMessageContent([])) == SapPack
  {
    ClassifyEmpty();
  }

  const FallbackOpening: string := "Go-Live Buddy Router intercepted your query. Directed to namespace: "
  const FallbackMiddle: string := ". \n\nI'm ready to assist with "
  const FallbackClosing: string :=
    " related questions. Currently standing by since Pinecone index is empty."

  /** `[namespace]`, as the fallback shows it. */
  function Bracketed(namespace: string): string {
    "[" + namespace + "]"
  }

  /** The canned answer sent when the vector index cannot be queried. */
  function FallbackMessage(namespace: string): string {
    FallbackOpening + Bracketed(namespace) + FallbackMiddle + Upper(namespace) + FallbackClosing
  }

  /** The fallback names the namespace, bracketed, and its upper-case form. */
  lemma FallbackNamesNamespace(namespace: string)
    ensures Contains(FallbackMessage(namespace), Bracketed(namespace))
    ensures Contains(FallbackMessage(namespace), Upper(namespace))
  {
    var head := FallbackOpening + Bracketed(namespace) + FallbackMiddle;
    ContainsInfix(FallbackOpening, Bracketed(namespace), FallbackMiddle);
    ContainsAppend(head, Upper(namespace), Bracketed(namespace));
    ContainsAppend(head + Upper(namespace), FallbackClosing, Bracketed(namespace));
    ContainsInfix(head, Upper(namespace), FallbackClosing);
  }

  /** Pointwise, each token is one word of the message followed by a space. */
  predicate SpacedWords(tokens: seq<string>, words: seq<string>) {
    |tokens| == |words| && forall i :: 0 <= i < |words| ==> tokens[i] == words[i] + " "
  }

  /** Concatenating words that each carry a trailing space is joining them with spaces, plus one space. */
  lemma {:induction false} ConcatSpacedWords(tokens: seq<string>, words: seq<string>)
    requires |words| >= 1 && SpacedWords(tokens, words)
    ensures Concat(tokens) == Join(words, " ") + " "
  {
    if |words| > 1 {
      ConcatSpacedWords(tokens[1..], words[1..]);
      assert Concat(tokens) == words[0] + " " + Concat(tokens[1..]);
    }
  }

  /**
   * The loop over `message.split(" ")` yielding `f"{word} "`: the tokens, in order,
   * spell the message followed by one space.
   */
  method FallbackTokens(message: string) returns (tokens: seq<string>)
    ensures SpacedWords(tokens, Split(message, ' '))
    ensures Concat(tokens) == message + " "
  {
    var words := Split(message, ' ');
    tokens := [];
    var i := 0;
    while i < |words|
      invariant 0 <= i <= |words|
      invariant SpacedWords(tokens, words[..i])
    {
      tokens := tokens + [words[i] + " "];
      i := i + 1;
    }
    assert words[..i] == words;
    ConcatSpacedWords(tokens, words);
    JoinSplit(message, ' ');
  }

  /**
   * `query_agent_stream`: the tokens the index streamed before any failure, then, if
   * querying failed, the fallback tokens for the namespace the query was routed to.
   */
  method QueryAgentStream(query: string, streamed: seq<string>, failed: bool)
    returns (namespace: string, tokens: seq<string>)
    ensures namespace == ClassifyQuery(query)
    ensures !failed ==> tokens == streamed
    ensures failed ==> |tokens| > |streamed| && tokens[..|streamed|] == streamed
    ensures failed ==> Concat(tokens[|streamed|..]) == FallbackMessage(namespace) + " "
  {
    namespace := ClassifyQuery(query);
    tokens := streamed;
    if failed {
      var fallback := FallbackTokens(FallbackMessage(namespace));
      tokens := tokens + fallback;
      assert tokens[|streamed|..] == fallback;
    }
  }
}
