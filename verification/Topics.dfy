/** The test program's topic list: one strtok pass counts the topics, a second one over a copy fills the array. */
module Topics {
  import opened CStrings
  import opened Tokenizer

  datatype TopicConfig = TopicConfig(ns: string, name: string, dType: string)

  const COMMA := ","

  function Names(cfgs: seq<TopicConfig>): seq<string> {
    seq(|cfgs|, i requires 0 <= i < |cfgs| => cfgs[i].name)
  }

  /** First pass: how many tokens. */
  method CountTopics(topics: array<char>) returns (total: nat)
    requires HasNul(topics[..], 0)
    modifies topics
    ensures total == |Tokens(old(CStrAt(topics[..], 0)), COMMA)|
  {
    hide Tokens, CStrAt, HasNul;
    ghost var all := Tokens(CStrAt(topics[..], 0), COMMA);
    total := 0;
    var token, saved := StrTok(topics, 0, COMMA);
    while token.Some?
      invariant saved < topics.Length && HasNul(topics[..], saved)
      invariant |all| == if token.Some? then total + 1 + |Tokens(CStrAt(topics[..], saved), COMMA)| else total
      decreases topics.Length - saved, token.Some?
    {
      total := total + 1;
      token, saved := StrTok(topics, saved, COMMA);
    }
  }

  /** Second pass: one entry per token, in order. */
  method FillTopics(temp: array<char>, ns: string, topicConfigs: array<TopicConfig>)
    requires HasNul(temp[..], 0) && topicConfigs.Length == |Tokens(CStrAt(temp[..], 0), COMMA)|
    modifies temp, topicConfigs
    ensures Names(topicConfigs[..]) == Tokens(old(CStrAt(temp[..], 0)), COMMA)
    ensures forall i | 0 <= i < topicConfigs.Length :: topicConfigs[i].ns == ns && topicConfigs[i].dType == "string"
  {
    hide Tokens, CStrAt, HasNul;
    ghost var all := Tokens(CStrAt(temp[..], 0), COMMA);
    ghost var seen: seq<string> := [];
    var i := 0;
    var topic, saved := StrTok(temp, 0, COMMA);
    while topic.Some?
      invariant saved < temp.Length && HasNul(temp[..], saved)
      invariant i == |seen| <= topicConfigs.Length == |all|
      invariant Left(temp[..], topic, saved, seen, all)
      invariant forall j | 0 <= j < i :: topicConfigs[j] == TopicConfig(ns, seen[j], "string")
      decreases temp.Length - saved, topic.Some?
    {
      var name := CStrAt(temp[..], topic.value);
      ghost var rest := Tokens(CStrAt(temp[..], saved), COMMA);
      assert all == seen + [name] + rest by {
        assert seen + ([name] + rest) == seen + [name] + rest;
      }
      topicConfigs[i] := TopicConfig(ns, name, "string");
      i := i + 1;
      seen := seen + [name];
      topic, saved := StrTok(temp, saved, COMMA);
    }
    assert Names(topicConfigs[..]) == seen;
  }

  /** `all` is what was seen, the current token if there is one, and the tokens after it. */
  ghost predicate Left(b: seq<char>, tok: Option<nat>, saved: nat, seen: seq<string>, all: seq<string>) {
    all == if tok.Some? then seen + ([CStrAt(b, tok.value)] + Tokens(CStrAt(b, saved), COMMA)) else seen
  }

  /** Both passes agree: the array is sized and filled for the same tokens, the comma-separated fields. */
  method TokenizeTopics(topics: array<char>, ns: string) returns (topicConfigs: array<TopicConfig>)
    requires HasNul(topics[..], 0) && |CStrAt(topics[..], 0)| + 1 < TOPIC_SIZE * 100
    modifies topics
    ensures fresh(topicConfigs)
    ensures Names(topicConfigs[..]) == Tokens(old(CStrAt(topics[..], 0)), COMMA)
    ensures forall i | 0 <= i < topicConfigs.Length :: topicConfigs[i].ns == ns && topicConfigs[i].dType == "string"
  {
    var tempTopics := new char[TOPIC_SIZE * 100];
    var text := CStrAt(topics[..], 0);
    DbaStrcpy(tempTopics, text);
    assert HasNul(tempTopics[..], 0) by {
      assert tempTopics[..][|text|] == NUL;
    }
    var totalTopics := CountTopics(topics);
    topicConfigs := new TopicConfig[totalTopics](_ => TopicConfig("", "", ""));
    FillTopics(tempTopics, ns, topicConfigs);
  }

  // ---------------------------------------------------------------------------------------------------------
  // Blanks in the list.

  /** A field of the list, empty ones aside, begins with a blank. */
  ghost predicate BlankField(text: string) {
    (text != "" && text[0] == ' ') || exists k | 0 < k < |text| :: BlankAfterComma(text, k)
  }

  predicate BlankAfterComma(text: string, k: nat)
    requires 0 < k < |text|
  {
    text[k - 1] == ',' && text[k] == ' '
  }

  ghost predicate BlankName(names: seq<string>) {
    exists t :: t in names && t != "" && t[0] == ' '
  }

  lemma BlankFieldCut(text: string, n: nat)
    requires n <= |text| && (n < |text| ==> text[n] == ',') && forall k | 0 <= k < n :: text[k] != ','
    ensures BlankField(text) <==> (n > 0 && text[0] == ' ') || BlankField(text[n..])
  {
    forall k | 0 < k < |text| && BlankAfterComma(text, k) ensures k > n && BlankAfterComma(text[n..], k - n) {
    }
    forall k | 0 < k < |text[n..]| && BlankAfterComma(text[n..], k) ensures BlankAfterComma(text, n + k) {
    }
  }

  lemma BlankFieldAfterComma(text: string)
    requires text != "" && text[0] == ','
    ensures BlankField(text) <==> BlankField(text[1..])
  {
    var rest := text[1..];
    if rest != "" && rest[0] == ' ' {
      assert BlankAfterComma(text, 1);
    }
    forall k | 0 < k < |text| && BlankAfterComma(text, k)
      ensures k == 1 || BlankAfterComma(rest, k - 1)
    {
    }
    forall k | 0 < k < |rest| && BlankAfterComma(rest, k) ensures BlankAfterComma(text, k + 1) {
    }
  }

  lemma BlankNameCons(t: string, names: seq<string>)
    requires t != ""
    ensures BlankName([t] + names) <==> t[0] == ' ' || BlankName(names)
  {
    assert forall x :: x in [t] + names <==> x == t || x in names;
  }

  /** For any list: some topic gets a name that begins with a blank exactly if the list starts with one or has one
      right after a comma. */
  lemma {:induction false} BlankNameIff(text: string)
    ensures BlankName(Tokens(text, COMMA)) <==> BlankField(text)
    decreases |text|
  {
    hide BlankName, BlankField;
    if text == "" {
      NoBlankInNothing();
    } else if text[0] in COMMA {
      BlankNameIff(text[1..]);
      BlankFieldAfterComma(text);
    } else {
      var n := RunLength(text, COMMA);
      BlankNameIff(text[n..]);
      BlankFieldCut(text, n);
      BlankNameCons(text[..n], Tokens(text[n..], COMMA));
    }
  }

  lemma NoBlankInNothing()
    ensures !BlankName([]) && !BlankField("")
  {
  }

  function Join(names: seq<string>, separator: string): string {
    if names == [] then "" else if |names| == 1 then names[0] else names[0] + (separator + Join(names[1..], separator))
  }

  function Padded(pad: string, names: seq<string>): (r: seq<string>)
    ensures |r| == |names|
  {
    seq(|names|, k requires 0 <= k < |names| => pad + names[k])
  }

  /** Names that can be written in a list. */
  ghost predicate Listable(names: seq<string>) {
    forall t | t in names :: t != "" && Clean(t, COMMA)
  }

  lemma FieldThen(w: string, rest: string)
    requires w != "" && Clean(w, COMMA)
    ensures Tokens(w, COMMA) == [w]
    ensures Tokens(w + ("," + rest), COMMA) == [w] + Tokens(rest, COMMA)
  {
    TokensOfPiece(w, "", COMMA);
    assert w + "" == w;
    TokensOfPiece(w, "," + rest, COMMA);
    assert ("," + rest)[1..] == rest;
  }

  lemma PaddedCons(pad: string, names: seq<string>)
    requires names != []
    ensures Padded(pad, names) == [pad + names[0]] + Padded(pad, names[1..])
  {
  }

  lemma {:induction false} JoinedFields(lead: string, pad: string, names: seq<string>)
    requires names != [] && Listable(names) && Clean(lead, COMMA) && Clean(pad, COMMA)
    ensures Tokens(lead + Join(names, "," + pad), COMMA) == [lead + names[0]] + Padded(pad, names[1..])
    decreases |names|
  {
    hide Tokens, Padded;
    var w, rest := lead + names[0], names[1..];
    assert names[0] in names && forall t | t in rest :: t in names;
    if rest == [] {
      FieldThen(w, "");
    } else {
      JoinedFields(pad, pad, rest);
      FieldThen(w, pad + Join(rest, "," + pad));
      assert lead + Join(names, "," + pad) == w + ("," + (pad + Join(rest, "," + pad)));
      PaddedCons(pad, rest);
    }
  }

  /** A list written with something after each comma: every name but the first gets it, so the intended names come
      out exactly if nothing is written there or there is only one name. */
  lemma WrittenListIff(names: seq<string>, pad: string)
    requires names != [] && Listable(names) && Clean(pad, COMMA)
    ensures Tokens(Join(names, "," + pad), COMMA) == [names[0]] + Padded(pad, names[1..])
    ensures Tokens(Join(names, "," + pad), COMMA) == names <==> pad == "" || |names| == 1
  {
    hide Tokens, Join, Listable;
    JoinedFields("", pad, names);
    assert "" + Join(names, "," + pad) == Join(names, "," + pad) && "" + names[0] == names[0];
    PaddingShows(pad, names);
  }

  lemma PaddingShows(pad: string, names: seq<string>)
    requires names != []
    ensures [names[0]] + Padded(pad, names[1..]) == names <==> pad == "" || |names| == 1
  {
    var padded := [names[0]] + Padded(pad, names[1..]);
    if |names| > 1 {
      assert |padded[1]| == |pad| + |names[1]|;
    }
    if pad == "" || |names| == 1 {
      assert forall k | 0 <= k < |names| :: padded[k] == names[k];
    }
  }
}
