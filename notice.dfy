/** `getConnectionHintNoticeField`: the notice the chat-model node shows when
    it is not connected, telling the user what to connect it to. The
    connection types are grouped by their `connection` string in a Map that
    keeps first-insertion order; one group gives a single sentence with an
    "Insert one" link, any other number of groups gives one link per group.
    The grouping is stated for any lookup table; ConnectionsString is the
    table the node ships with. */
module ConnectionHint {
  import opened Text
  import opened Markup

  /** `connectionsString`, keyed by the host library's connection type names. */
  const ConnectionsString: map<string, ConnectionString> := map[
    "ai_agent" := ConnectionString("", "AI Agent"),
    "ai_chain" := ConnectionString("", "AI Chain")
  ]

  /** `groupedConnections`: the Map's keys in insertion order, and the
      locales stored under each key. */
  datatype Groups = Groups(order: seq<string>, locales: map<string, seq<string>>)

  /** What a Map built only by `set` and `push` looks like: every key once,
      the keys are exactly the listed ones, and no key holds an empty list. */
  ghost predicate GroupsValid(g: Groups)
  {
    && (forall p, q :: 0 <= p < q < |g.order| ==> g.order[p] != g.order[q])
    && (forall c :: c in g.locales <==> c in g.order)
    && (forall c :: c in g.locales ==> |g.locales[c]| > 0)
  }

  /** One `forEach` step: unknown types are skipped; a type whose connection
      string is new starts a group, otherwise its locale joins that group. */
  function AddConnection(table: map<string, ConnectionString>, g: Groups, connectionType: string): Groups
  {
    if connectionType !in table then g
    else
      var cs := table[connectionType];
      if cs.connection !in g.locales then Groups(g.order + [cs.connection], g.locales[cs.connection := [cs.locale]])
      else Groups(g.order, g.locales[cs.connection := g.locales[cs.connection] + [cs.locale]])
  }

  /** The Map after the `forEach` over `types`. */
  function Grouped(table: map<string, ConnectionString>, types: seq<string>): Groups
  {
    if types == [] then Groups([], map[])
    else AddConnection(table, Grouped(table, types[..|types| - 1]), types[|types| - 1])
  }

  /** The grouping loop, building the ordered Map in place. */
  method GroupConnections(table: map<string, ConnectionString>, types: seq<string>) returns (g: Groups)
    ensures g == Grouped(table, types)
    ensures GroupsValid(g)
  {
    var order: seq<string> := [];
    var locales: map<string, seq<string>> := map[];
    for n := 0 to |types|
      invariant Groups(order, locales) == Grouped(table, types[..n])
    {
      var connectionType := types[n];
      if connectionType in table {
        var cs := table[connectionType];
        if cs.connection !in locales {
          order := order + [cs.connection];
          locales := locales[cs.connection := [cs.locale]];
        } else {
          locales := locales[cs.connection := locales[cs.connection] + [cs.locale]];
        }
      }
      assert types[..n + 1][..n] == types[..n];
    }
    assert types[..|types|] == types;
    g := Groups(order, locales);
    GroupedValid(table, types);
  }

  /** The connection strings of the known types of `types`, in order, repeats included. */
  function Connections(table: map<string, ConnectionString>, types: seq<string>): seq<string>
  {
    if types == [] then []
    else if types[0] in table then [table[types[0]].connection] + Connections(table, types[1..])
    else Connections(table, types[1..])
  }

  /** The locales of the known types of `types` whose connection string is `c`, in order. */
  function LocalesOf(table: map<string, ConnectionString>, types: seq<string>, c: string): seq<string>
  {
    if types == [] then []
    else if types[0] in table && table[types[0]].connection == c then
      [table[types[0]].locale] + LocalesOf(table, types[1..], c)
    else LocalesOf(table, types[1..], c)
  }

  /** Keeps the first occurrence of every element. */
  function Dedup(s: seq<string>): seq<string>
  {
    if s == [] then [] else
      var d := Dedup(s[..|s| - 1]);
      if s[|s| - 1] in s[..|s| - 1] then d else d + [s[|s| - 1]]
  }

  lemma {:induction false} ConnectionsSnoc(table: map<string, ConnectionString>, types: seq<string>, t: string, c: string)
    ensures Connections(table, types + [t]) == Connections(table, types) + (if t in table then [table[t].connection] else [])
    ensures LocalesOf(table, types + [t], c)
         == LocalesOf(table, types, c) + (if t in table && table[t].connection == c then [table[t].locale] else [])
  {
    if types != [] {
      assert (types + [t])[1..] == types[1..] + [t];
      ConnectionsSnoc(table, types[1..], t, c);
    } else {
      assert types + [t] == [t];
    }
  }

  /** Dedup lists each element of `s` once, and nothing else. */
  lemma {:induction false} DedupMembers(s: seq<string>)
    ensures forall x :: x in Dedup(s) <==> x in s
    ensures forall p, q :: 0 <= p < q < |Dedup(s)| ==> Dedup(s)[p] != Dedup(s)[q]
  {
    if s != [] {
      var s' := s[..|s| - 1];
      DedupMembers(s');
      assert s == s' + [s[|s| - 1]];
    }
  }

  /** The Map the loop builds: its keys are the connection strings of the
      known types in order of first appearance, each holding the locales of
      its types in input order. */
  lemma {:induction false} GroupedContents(table: map<string, ConnectionString>, types: seq<string>)
    ensures var g := Grouped(table, types);
      && g.order == Dedup(Connections(table, types))
      && (forall c :: c in g.locales <==> c in Connections(table, types))
      && (forall c :: c in g.locales ==> g.locales[c] == LocalesOf(table, types, c))
  {
    if types != [] {
      var types', t := types[..|types| - 1], types[|types| - 1];
      assert types == types' + [t];
      GroupedContents(table, types');
      forall c ensures LocalesOf(table, types, c)
        == LocalesOf(table, types', c) + (if t in table && table[t].connection == c then [table[t].locale] else [])
      {
        ConnectionsSnoc(table, types', t, c);
      }
      ConnectionsSnoc(table, types', t, "");
      if t in table {
        var c0 := table[t].connection;
        var g' := Grouped(table, types');
        DedupSnoc(Connections(table, types'), c0);
        assert c0 in g'.locales <==> c0 in Connections(table, types');
        if c0 !in Connections(table, types') {
          LocalesOfUnseen(table, types', c0);
        }
      } else {
        assert Connections(table, types) == Connections(table, types');
      }
    }
  }

  lemma DedupSnoc(s: seq<string>, x: string)
    ensures Dedup(s + [x]) == Dedup(s) + (if x in s then [] else [x])
  {
    assert (s + [x])[..|s|] == s;
  }

  /** A connection string no known type has collects no locales. */
  lemma {:induction false} LocalesOfUnseen(table: map<string, ConnectionString>, types: seq<string>, c: string)
    requires c !in Connections(table, types)
    ensures LocalesOf(table, types, c) == []
  {
    if types != [] {
      LocalesOfUnseen(table, types[1..], c);
    }
  }

  /** The loop only ever builds a well-formed Map. */
  lemma GroupedValid(table: map<string, ConnectionString>, types: seq<string>)
    ensures GroupsValid(Grouped(table, types))
  {
    GroupedContents(table, types);
    DedupMembers(Connections(table, types));
    var g := Grouped(table, types);
    forall c | c in g.locales ensures |g.locales[c]| > 0 {
      LocalesNonEmpty(table, types, c);
    }
  }

  /** A connection string that occurs has at least one locale. */
  lemma {:induction false} LocalesNonEmpty(table: map<string, ConnectionString>, types: seq<string>, c: string)
    requires c in Connections(table, types)
    ensures |LocalesOf(table, types, c)| > 0
  {
    if !(types[0] in table && table[types[0]].connection == c) {
      LocalesNonEmpty(table, types[1..], c);
    }
  }

  /** With the node's own table every type shares the connection string "",
      so there is never more than one group. */
  lemma {:induction false} AtMostOneGroup(types: seq<string>)
    ensures |Grouped(ConnectionsString, types).order| <= 1
    ensures Grouped(ConnectionsString, types).order == [] || Grouped(ConnectionsString, types).order == [""]
  {
    if types != [] {
      AtMostOneGroup(types[..|types| - 1]);
      GroupedValid(ConnectionsString, types[..|types| - 1]);
    }
  }

  /** `determineArticle`: "an" exactly when the word starts with a vowel
      letter of either case, else "a". */
  function DetermineArticle(nextWord: string): (article: string)
    ensures article == "an" <==> |nextWord| > 0 && nextWord[0] in "aeiouAEIOU"
    ensures article == "a" <==> !(|nextWord| > 0 && nextWord[0] in "aeiouAEIOU")
  {
    if |nextWord| > 0 && nextWord[0] in "aeiouAEIOU" then "an" else "a"
  }

  /** `.replace(/^ai /, 'AI ')`: a leading "ai " is written "AI ". */
  function ReplaceLeadingAi(s: string): (r: string)
    ensures |r| == |s|
    ensures forall k :: 3 <= k < |s| ==> r[k] == s[k]
    ensures StartsWith(s, "ai ") ==> StartsWith(r, "AI ")
    ensures !StartsWith(s, "ai ") ==> r == s
  {
    if StartsWith(s, "ai ") then "AI " + s[3..] else s
  }

  /** One element of `locales.map(...)`: the article before the first locale,
      " or " after every locale but the last. */
  function Piece(localeString: string, index: nat, length: nat): string
  {
    (if index == 0 then DetermineArticle(localeString) + " " else "")
      + (if index < length - 1 then localeString + " or " else localeString)
  }

  /** `locales.map(...)` from position `from` on. */
  function Pieces(locales: seq<string>, from: nat): seq<string>
    requires from <= |locales|
    decreases |locales| - from
  {
    if from == |locales| then [] else [Piece(locales[from], from, |locales|)] + Pieces(locales, from + 1)
  }

  /** The locale phrase of one group: the mapped pieces joined with '' for
      several locales, `${article} ${locale}` for one. */
  function LocalePhrase(locales: seq<string>): string
    requires |locales| > 0
  {
    if |locales| > 1 then Concat(Pieces(locales, 0))
    else DetermineArticle(locales[0]) + " " + locales[0]
  }

  lemma {:induction false} PiecesJoin(locales: seq<string>, from: nat)
    requires 0 < from < |locales|
    ensures Concat(Pieces(locales, from)) == Join(locales[from..], " or ")
    decreases |locales| - from
  {
    if from < |locales| - 1 {
      PiecesJoin(locales, from + 1);
      assert locales[from..][1..] == locales[from + 1..];
    } else {
      assert locales[from..] == [locales[from]];
    }
  }

  /** Both branches of the phrase say the same thing: the article of the
      first locale, then all the locales separated by " or ". */
  lemma LocalePhraseJoin(locales: seq<string>)
    requires |locales| > 0
    ensures LocalePhrase(locales) == DetermineArticle(locales[0]) + " " + Join(locales, " or ")
  {
    if |locales| > 1 {
      var article := DetermineArticle(locales[0]);
      var rest := Join(locales[1..], " or ");
      PiecesJoin(locales, 1);
      assert Pieces(locales, 0) == [Piece(locales[0], 0, |locales|)] + Pieces(locales, 1);
      assert Concat(Pieces(locales, 0)) == Piece(locales[0], 0, |locales|) + rest;
      assert Piece(locales[0], 0, |locales|) == article + " " + (locales[0] + " or ");
      assert Join(locales, " or ") == locales[0] + " or " + rest;
    }
  }

  /** The link of the group stored under `connection`. */
  function GroupLink(g: Groups, connection: string): string
    requires connection in g.locales && |g.locales[connection]| > 0
  {
    GetAhref(ConnectionString(connection, LocalePhrase(g.locales[connection])))
  }

  /** `Array.from(groupedConnections, ...)`: the links of all groups, in the Map's order. */
  function Ahrefs(g: Groups): (links: seq<string>)
    requires GroupsValid(g)
    ensures |links| == |g.order|
  {
    seq(|g.order|, k requires 0 <= k < |g.order| => GroupLink(g, g.order[k]))
  }

  /** The text of link `k` is the `k`-th group's article and locales joined by " or ". */
  lemma AhrefsContents(g: Groups, k: nat)
    requires GroupsValid(g) && k < |g.order|
    ensures var c := g.order[k];
      var locales := g.locales[c];
      Ahrefs(g)[k] == GetAhref(ConnectionString(c, DetermineArticle(locales[0]) + " " + Join(locales, " or ")))
  {
    LocalePhraseJoin(g.locales[g.order[k]]);
  }

  /** The notice's text for a grouping. */
  function DisplayName(g: Groups): string
    requires GroupsValid(g)
  {
    if |g.order| == 1 then
      var connection := g.order[0];
      var locales := g.locales[connection];
      "This node must be connected to " + DetermineArticle(locales[0]) + " "
        + ReplaceLeadingAi(Lower(locales[0]))
        + ". <a data-action='openSelectiveNodeCreator' " + ParamString(connection) + ">Insert one</a>"
    else
      "This node needs to be connected to " + Join(Ahrefs(g), " or ") + "."
  }

  /** The `INodeProperties` object returned. */
  datatype NoticeField = NoticeField(displayName: string, name: string, fieldType: string, default: string, containerClass: string)

  function NoticeFor(types: seq<string>): NoticeField
  {
    GroupedValid(ConnectionsString, types);
    NoticeField(DisplayName(Grouped(ConnectionsString, types)), "notice", "notice", "", "ndv-connection-hint-notice")
  }

  /** `getConnectionHintNoticeField`. */
  method GetConnectionHintNoticeField(connectionTypes: seq<string>) returns (field: NoticeField)
    ensures field == NoticeFor(connectionTypes)
    ensures field.name == "notice" && field.fieldType == "notice" && field.default == ""
    ensures field.containerClass == "ndv-connection-hint-notice"
  {
    var groups := GroupConnections(ConnectionsString, connectionTypes);
    field := NoticeField(DisplayName(groups), "notice", "notice", "", "ndv-connection-hint-notice");
  }

  /** With no known connection type there are no groups, and the notice ends
      in an empty list of links. */
  lemma NoticeWithoutKnownTypes(types: seq<string>)
    requires forall i :: 0 <= i < |types| ==> types[i] !in ConnectionsString
    ensures NoticeFor(types).displayName == "This node needs to be connected to ."
  {
    GroupedContents(ConnectionsString, types);
    NoKnownConnections(types);
  }

  lemma {:induction false} NoKnownConnections(types: seq<string>)
    requires forall i :: 0 <= i < |types| ==> types[i] !in ConnectionsString
    ensures Connections(ConnectionsString, types) == []
  {
    if types != [] {
      NoKnownConnections(types[1..]);
    }
  }

  /** With a known type there is exactly one group, and the notice is the
      single-group sentence about the locale of the first known type, with a
      link to the AI creator view. */
  lemma FirstKnownTypeNotice(types: seq<string>, i: nat)
    requires i < |types| && types[i] in ConnectionsString
    requires forall j :: 0 <= j < i ==> types[j] !in ConnectionsString
    ensures Grouped(ConnectionsString, types).order == [""]
    ensures var l := ConnectionsString[types[i]].locale;
      NoticeFor(types).displayName ==
        "This node must be connected to " + DetermineArticle(l) + " " + ReplaceLeadingAi(Lower(l))
          + ". <a data-action='openSelectiveNodeCreator' " + ParamString("") + ">Insert one</a>"
  {
    FirstKnownTypeGroup(types, i);
    var g := Grouped(ConnectionsString, types);
    assert NoticeFor(types).displayName == DisplayName(g);
    SingleGroupSentence(g);
  }

  /** One group gives the "must be connected" sentence about its first
      locale, with the group's own attribute on the "Insert one" link. */
  lemma SingleGroupSentence(g: Groups)
    requires GroupsValid(g) && |g.order| == 1
    ensures var c := g.order[0];
      var l := g.locales[c][0];
      DisplayName(g) ==
        "This node must be connected to " + DetermineArticle(l) + " " + ReplaceLeadingAi(Lower(l))
          + ". <a data-action='openSelectiveNodeCreator' " + ParamString(c) + ">Insert one</a>"
  {
  }

  /** With a known type the Map has the one key "", whose first locale is the
      first known type's. */
  lemma FirstKnownTypeGroup(types: seq<string>, i: nat)
    requires i < |types| && types[i] in ConnectionsString
    requires forall j :: 0 <= j < i ==> types[j] !in ConnectionsString
    ensures var g := Grouped(ConnectionsString, types);
      && GroupsValid(g) && g.order == [""]
      && g.locales[""][0] == ConnectionsString[types[i]].locale
  {
    GroupedContents(ConnectionsString, types);
    GroupedValid(ConnectionsString, types);
    AtMostOneGroup(types);
    FirstLocale(types, i);
  }

  /** With the node's table the sentence reads "an AI agent" or "an AI chain". */
  lemma NoticeWithKnownType(types: seq<string>, i: nat)
    requires i < |types| && types[i] in ConnectionsString
    requires forall j :: 0 <= j < i ==> types[j] !in ConnectionsString
    ensures NoticeFor(types).displayName ==
      "This node must be connected to " + "an" + " " + (if types[i] == "ai_agent" then "AI agent" else "AI chain")
        + ". <a data-action='openSelectiveNodeCreator' " + CreatorViewParameter + ">Insert one</a>"
  {
    FirstKnownTypeNotice(types, i);
    var l := ConnectionsString[types[i]].locale;
    if types[i] == "ai_agent" {
      assert l == "AI Agent";
      AgentPhrase();
    } else {
      assert l == "AI Chain";
      ChainPhrase();
    }
  }

  lemma AgentPhrase()
    ensures DetermineArticle("AI Agent") == "an" && ReplaceLeadingAi(Lower("AI Agent")) == "AI agent"
  {
    LowerAgent();
  }

  lemma LowerAgent()
    ensures Lower("AI Agent") == "ai agent"
  {
  }

  lemma ChainPhrase()
    ensures DetermineArticle("AI Chain") == "an" && ReplaceLeadingAi(Lower("AI Chain")) == "AI chain"
  {
    LowerChain();
  }

  lemma LowerChain()
    ensures Lower("AI Chain") == "ai chain"
  {
  }

  /** The first locale stored under "" is the first known type's. */
  lemma {:induction false} FirstLocale(types: seq<string>, i: nat)
    requires i < |types| && types[i] in ConnectionsString
    requires forall j :: 0 <= j < i ==> types[j] !in ConnectionsString
    ensures |LocalesOf(ConnectionsString, types, "")| > 0
    ensures LocalesOf(ConnectionsString, types, "")[0] == ConnectionsString[types[i]].locale
    ensures "" in Connections(ConnectionsString, types)
  {
    if i > 0 {
      FirstLocale(types[1..], i - 1);
    }
  }
}
