/** The two cuts a payload goes through on its way to a subscriber: after the last ']' in the C callback and
    after the last '}' in the Python callback. */
module Trim {
  import opened CStrings

  function LastIndexOf(s: string, c: char): (r: int)
    ensures -1 <= r < |s|
    ensures r >= 0 ==> s[r] == c
    ensures forall k | r < k < |s| :: s[k] != c
  {
    if s == "" then -1
    else if s[|s| - 1] == c then |s| - 1
    else LastIndexOf(s[..|s| - 1], c)
  }

  /** Everything up to and including the last ']', or all of it. */
  function CTrim(s: string): string {
    if ']' in s then s[..LastIndexOf(s, ']') + 1] else s
  }

  /** What is left in `subscribedData`: the cut text, bounded by the buffer. */
  function Received(raw: string): string {
    CTrim(raw)[..Min(|CTrim(raw)|, PUBLISH_DATA_SIZE - 1)]
  }

  predicate Fits(payload: string) {
    NUL !in payload && |payload| + 1 < PUBLISH_DATA_SIZE
  }

  predicate EndsWith(s: string, c: char) {
    s != "" && s[|s| - 1] == c
  }

  /** The junk after the received bytes is cut away by the C callback. */
  predicate CleanJunk(value: string, junk: string) {
    junk == "" || (']' in value && ']' !in junk)
  }

  /** CTrim is the longest prefix that ends in ']'; without a ']' nothing is cut. */
  lemma CTrimLongest(s: string)
    ensures CTrim(s) <= s
    ensures ']' !in s ==> CTrim(s) == s
    ensures ']' in s ==> EndsWith(CTrim(s), ']')
    ensures forall p | p <= s && EndsWith(p, ']') :: p <= CTrim(s)
  {
    forall p | p <= s && EndsWith(p, ']') ensures p <= CTrim(s) {
      assert s[|p| - 1] == ']';
      assert |p| - 1 <= LastIndexOf(s, ']');
    }
  }

  lemma CTrimIdentityIff(s: string)
    ensures CTrim(s) == s <==> ']' !in s || EndsWith(s, ']')
  {
    CTrimLongest(s);
  }

  lemma CTrimIdempotent(s: string)
    ensures CTrim(CTrim(s)) == CTrim(s)
  {
    CTrimLongest(s);
    CTrimIdentityIff(CTrim(s));
  }

  /** Appended junk disappears exactly when it holds no ']' and the message has one to cut at. */
  lemma JunkRemovedIff(m: string, g: string)
    ensures CTrim(m + g) == CTrim(m) <==> CleanJunk(m, g)
  {
    if g == "" {
      assert m + g == m;
    } else if ']' in g {
      assert (m + g)[|m| + LastIndexOf(g, ']')] == ']';
      assert LastIndexOf(m + g, ']') >= |m|;
    } else if ']' in m {
      var k := LastIndexOf(m, ']');
      assert (m + g)[k] == ']';
      assert LastIndexOf(m + g, ']') == k;
    }
  }

  /** An exporter payload, the topic name and a text ending in ']', arrives unchanged, whatever ']'-free junk
      follows it, and passes the filter of its own topic. */
  lemma ExporterPayloadArrives(name: string, data: string, junk: string)
    requires EndsWith(data, ']') && ']' !in junk && Fits(name + " " + data)
    ensures Received(name + " " + data + junk) == name + " " + data
    ensures Occurs(name, name + " " + data)
  {
    var m := name + " " + data;
    assert m[|m| - 1] == ']';
    CTrimIdentityIff(m);
    JunkRemovedIff(m, junk);
    assert OccursAt(name, m, 0);
  }

  lemma ReceivedOfFitting(p: string)
    requires Fits(p)
    ensures Received(p) == CTrim(p)
  {
    CTrimLongest(p);
  }

  /** cb_func's own cut, on a message it may index. */
  function PyTrim(msg: string): string
    requires msg != ""
  {
    if msg[0] == '{' && msg[|msg| - 1] != '}' then msg[..LastIndexOf(msg, '}') + 1] else msg
  }

  /** Both cuts together only ever shorten the payload, and leave it alone in exactly these cases. */
  lemma TwoStageTrim(p: string)
    requires p != ""
    ensures CTrim(p) != "" && PyTrim(CTrim(p)) <= p
    ensures PyTrim(CTrim(p)) == p
            <==> (']' !in p || EndsWith(p, ']')) && (p[0] != '{' || EndsWith(p, '}'))
  {
    CTrimLongest(p);
    CTrimIdentityIff(p);
  }

  /** The Python cut of an object: the longest prefix that ends in '}', and nothing if there is none. */
  lemma PyTrimLongest(msg: string)
    requires msg != "" && msg[0] == '{'
    ensures PyTrim(msg) <= msg && (PyTrim(msg) == "" || EndsWith(PyTrim(msg), '}'))
    ensures forall p | p <= msg && EndsWith(p, '}') :: p <= PyTrim(msg)
  {
    forall p | p <= msg && EndsWith(p, '}') ensures p <= PyTrim(msg) {
      assert msg[|p| - 1] == '}';
    }
  }

  /** What arrives of a JSON object: all of it up to the last '}' that does not come after its last ']'. */
  lemma WhatIsLeftOfObject(p: string)
    requires p != "" && p[0] == '{'
    ensures var r := PyTrim(CTrim(p));
            && r <= p && (r == "" || EndsWith(r, '}'))
            && forall q | q <= p && EndsWith(q, '}') && (']' !in p || |q| <= LastIndexOf(p, ']')) :: q <= r
  {
    TwoStageTrim(p);
    PyTrimLongest(CTrim(p));
    forall q | q <= p && EndsWith(q, '}') && (']' !in p || |q| <= LastIndexOf(p, ']')) ensures q <= PyTrim(CTrim(p)) {
      assert q <= CTrim(p);
    }
  }

  lemma BraceKept(msg: string)
    requires msg != "" && msg[0] == '{'
    ensures PyTrim(msg) == "" <==> '}' !in msg
  {
    PyTrimLongest(msg);
    if '}' in msg {
      var k :| 0 <= k < |msg| && msg[k] == '}';
      assert EndsWith(msg[..k + 1], '}') && msg[..k + 1] <= msg;
    }
  }

  function BeforeLastBracket(p: string): string {
    if ']' in p then p[..LastIndexOf(p, ']')] else p
  }

  lemma CutBrace(p: string)
    ensures '}' in CTrim(p) <==> '}' in BeforeLastBracket(p)
  {
    if ']' in p {
      assert CTrim(p) == BeforeLastBracket(p) + [']'];
    }
  }

  /** Exactly which payloads arrive empty: the objects with no '}' before their last ']', or none at all. */
  lemma LostIff(p: string)
    requires p != ""
    ensures PyTrim(CTrim(p)) == "" <==> p[0] == '{' && '}' !in BeforeLastBracket(p)
  {
    hide LastIndexOf, BeforeLastBracket;
    TwoStageTrim(p);
    CTrimLongest(p);
    CutBrace(p);
    assert CTrim(p)[0] == p[0];
    if p[0] == '{' {
      BraceKept(CTrim(p));
    }
  }

  /** An instance: the array comes before the only closing brace. */
  lemma JsonWithArrayIsLost()
    ensures PyTrim(CTrim("{\"a\":[1]}")) == ""
  {
    var p := "{\"a\":[1]}";
    assert p[7] == ']' && LastIndexOf(p, ']') == 7;
    LostIff(p);
  }

  /** The call a monitored item makes for the received bytes `raw`. */
  function Handle(mon: MonitorContext, raw: string): Option<Delivery> {
    if mon.hasCallback && Occurs(mon.topic, Received(raw))
    then Some(Delivery(mon.topic, Received(raw), mon.userFunc))
    else None
  }

  datatype Delivery = Delivery(topic: string, data: string, userFunc: int)
  datatype MonitorContext = MonitorContext(namespaceIndex: nat, topic: string, hasCallback: bool, userFunc: int)

  /** The backward scan for ']' over the received bytes, and the bounded copy of what it keeps. */
  method CopyTrimmed(data: array<char>, subscribedData: array<char>) returns (text: string)
    requires NUL in data[..] && data != subscribedData && subscribedData.Length == PUBLISH_DATA_SIZE
    modifies subscribedData
    ensures text == CStrAt(subscribedData[..], 0) == Received(CStrAt(data[..], 0))
  {
    ghost var raw := CStrAt(data[..], 0);
    var n: int := StrLen(data);
    var destLen: int := n - 1;
    var i := destLen;
    while i >= 0
      invariant -1 <= i < n && destLen == n - 1
      invariant forall k | i < k < n :: raw[k] != ']'
    {
      if data[i] == ']' {
        destLen := i;
        break;
      }
      i := i - 1;
    }
    assert raw[..destLen + 1] == CTrim(raw);
    DbaStrncpy(subscribedData, data[..n], destLen + 1);
    var m := StrLen(subscribedData);
    text := subscribedData[..m];
  }

  /** The notification handler: `data` holds the bytes at `str.data`, which run on to the next NUL,
      `subscribedData` is the static buffer.  The user is called when the topic occurs in what was received. */
  method SubscriptionCallback(mon: Option<MonitorContext>, isScalar: bool, isString: bool,
                              data: array<char>, subscribedData: array<char>) returns (call: Option<Delivery>)
    requires NUL in data[..] && data != subscribedData && subscribedData.Length == PUBLISH_DATA_SIZE
    modifies subscribedData
    ensures call == if mon.Some? && isScalar && isString then Handle(mon.value, CStrAt(data[..], 0)) else None
  {
    call := None;
    if mon.Some? && isScalar {
      if isString {
        if mon.value.hasCallback {
          var text := CopyTrimmed(data, subscribedData);
          if Occurs(mon.value.topic, text) {
            call := Some(Delivery(mon.value.topic, text, mon.value.userFunc));
          }
        }
      }
    }
  }
}
