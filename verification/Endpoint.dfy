/** Endpoints: ContextCreate takes one apart in place, the client wrapper puts one together. */
module Endpoint {
  import opened CStrings
  import opened Decimal
  import opened Tokenizer

  const DELIMITER := "://"

  /** What ContextCreate's parse comes to.  `hostNamePort` has three slots: a fourth piece would be written past
      them, and with one or two pieces a slot is read that was never written. */
  datatype Parse = NoPieces | TooManyPieces | TooFewPieces | Parsed(host: string, port: nat)

  function ParseOf(endpoint: string): Parse {
    var ts := Tokens(endpoint, DELIMITER);
    if |ts| == 0 then NoPieces
    else if |ts| > 3 then TooManyPieces
    else if |ts| < 3 then TooFewPieces
    else Parsed(ts[1], PortOf(ts[2]))
  }

  datatype ContextConfig = ContextConfig(direction: string, certFile: string, privateFile: string, trustFile: seq<string>)
  datatype Started =
    | Nothing
    | Server(host: string, port: nat)
    | Client(host: string, port: nat)
    | ServerSecured(host: string, port: nat, cert: string, key: string, trusted: seq<string>)
    | ClientSecured(host: string, port: nat, cert: string, key: string, trusted: seq<string>)

  predicate DevMode(c: ContextConfig)
    requires c.certFile == "" && c.privateFile == "" ==> c.trustFile != []
  {
    c.certFile == "" && c.privateFile == "" && c.trustFile[0] == ""
  }

  /** Which context the direction and the certificates select; any other direction starts nothing. */
  function Dispatch(c: ContextConfig, host: string, port: nat): Started
    requires c.certFile == "" && c.privateFile == "" ==> c.trustFile != []
  {
    if c.direction == "PUB" then
      if DevMode(c) then Server(host, port) else ServerSecured(host, port, c.certFile, c.privateFile, c.trustFile)
    else if c.direction == "SUB" then
      if DevMode(c) then Client(host, port) else ClientSecured(host, port, c.certFile, c.privateFile, c.trustFile)
    else Nothing
  }

  /** What ContextCreate starts for a parse: nothing unless it found host and port. */
  function StartedFor(c: ContextConfig, parse: Parse): Started
    requires c.certFile == "" && c.privateFile == "" ==> c.trustFile != []
  {
    if parse.Parsed? then Dispatch(c, parse.host, parse.port) else Nothing
  }

  /** In terms of the direction and the three certificate fields alone: exactly when each kind of context is started,
      and with what. */
  ghost predicate StartsExactly(c: ContextConfig, host: string, port: nat, started: Started)
    requires c.certFile == "" && c.privateFile == "" ==> c.trustFile != []
  {
    var bare := c.certFile == "" && c.privateFile == "" && c.trustFile[0] == "";
    && (started == Server(host, port) <==> c.direction == "PUB" && bare)
    && (started == Client(host, port) <==> c.direction == "SUB" && bare)
    && (started == ServerSecured(host, port, c.certFile, c.privateFile, c.trustFile) <==> c.direction == "PUB" && !bare)
    && (started == ClientSecured(host, port, c.certFile, c.privateFile, c.trustFile) <==> c.direction == "SUB" && !bare)
    && (started == Nothing <==> c.direction != "PUB" && c.direction != "SUB")
  }

  ghost predicate TokensKept(b: seq<char>, at: seq<nat>, ts: seq<string>, limit: nat) {
    |at| == |ts| && forall j | 0 <= j < |at| :: TokenAt(b, at[j], ts[j], limit)
  }

  /** The strtok loop over an endpoint buffer.  `hostNamePort` receives the offsets at which the pieces start; `overrun`
      says that a fourth piece was found. */
  method SplitEndpoint(buf: array<char>, hostNamePort: array<nat>) returns (count: nat, overrun: bool, ghost limit: nat)
    requires HasNul(buf[..], 0) && hostNamePort.Length == 3
    modifies buf, hostNamePort
    ensures overrun <==> |Tokens(old(CStrAt(buf[..], 0)), DELIMITER)| > 3
    ensures !overrun ==> count <= 3 && TokensKept(buf[..], hostNamePort[..count], Tokens(old(CStrAt(buf[..], 0)), DELIMITER), limit)
  {
    hide Tokens, CStrAt, HasNul;
    ghost var all := Tokens(CStrAt(buf[..], 0), DELIMITER);
    ghost var seen: seq<string> := [];
    count, overrun := 0, false;
    ghost var b := buf[..];
    var tok, saved := StrTok(buf, 0, DELIMITER);
    limit := 0;
    if tok.Some? {
      seen := [CStrAt(buf[..], tok.value)];
    }
    while tok.Some?
      invariant saved < buf.Length && HasNul(buf[..], saved) && count <= 3
      invariant tok.None? ==> all == seen && TokensKept(buf[..], hostNamePort[..count], seen, saved)
      invariant tok.Some? ==> seen != [] && FoundLast(buf[..], hostNamePort[..count], tok.value, seen, saved)
                              && all == seen + Tokens(CStrAt(buf[..], saved), DELIMITER)
      decreases buf.Length - saved, tok.Some?
    {
      if count == 3 {
        return count, true, saved;
      }
      hostNamePort[count] := tok.value;
      count := count + 1;
      assert TokensKept(buf[..], hostNamePort[..count], seen, saved);
      b := buf[..];
      limit := saved;
      tok, saved := StrTok(buf, saved, DELIMITER);
      KeptStays(b, buf[..], hostNamePort[..count], seen, limit, saved);
      if tok.Some? {
        seen := seen + [CStrAt(buf[..], tok.value)];
      }
    }
    limit := saved;
  }

  ghost predicate FoundLast(b: seq<char>, at: seq<nat>, t: nat, seen: seq<string>, limit: nat)
    requires seen != []
  {
    TokensKept(b, at + [t], seen, limit)
  }

  lemma KeptStays(b: seq<char>, b': seq<char>, at: seq<nat>, ts: seq<string>, limit: nat, limit': nat)
    requires TokensKept(b, at, ts, limit) && SameUpTo(b, b', limit) && limit <= limit' < |b|
    ensures TokensKept(b', at, ts, limit')
  {
    forall j | 0 <= j < |at| ensures TokenAt(b', at[j], ts[j], limit') {
      TokenStays(b, b', at[j], ts[j], limit, limit');
    }
  }

  /** ContextCreate: the endpoint buffer is consumed by the parse; a context is started exactly for a three-piece
      endpoint and a known direction. */
  method ContextCreate(endpoint: array<char>, c: ContextConfig) returns (parse: Parse, started: Started)
    requires HasNul(endpoint[..], 0)
    requires c.certFile == "" && c.privateFile == "" ==> c.trustFile != []
    modifies endpoint
    ensures parse == ParseOf(old(CStrAt(endpoint[..], 0)))
    ensures started == StartedFor(c, parse)
    ensures if parse.Parsed? then StartsExactly(c, parse.host, parse.port, started) else started == Nothing
  {
    ghost var text := CStrAt(endpoint[..], 0);
    var hostNamePort := new nat[3];
    var count, overrun, limit := SplitEndpoint(endpoint, hostNamePort);
    started := Nothing;
    if overrun {
      parse := TooManyPieces;
    } else if count == 0 {
      parse := NoPieces;
    } else if count < 3 {
      parse := TooFewPieces;
    } else {
      PieceRead(endpoint[..], hostNamePort[..], Tokens(text, DELIMITER), 1, limit);
      PieceRead(endpoint[..], hostNamePort[..], Tokens(text, DELIMITER), 2, limit);
      var hostname := CStrAt(endpoint[..], hostNamePort[1]);
      var port := PortOf(CStrAt(endpoint[..], hostNamePort[2]));
      parse := Parsed(hostname, port);
      var devmode := DevMode(c);
      if devmode {
        if c.direction == "PUB" {
          started := Server(hostname, port);
        } else if c.direction == "SUB" {
          started := Client(hostname, port);
        }
      } else {
        if c.direction == "PUB" {
          started := ServerSecured(hostname, port, c.certFile, c.privateFile, c.trustFile);
        } else if c.direction == "SUB" {
          started := ClientSecured(hostname, port, c.certFile, c.privateFile, c.trustFile);
        }
      }
    }
  }

  lemma PieceRead(b: seq<char>, at: seq<nat>, ts: seq<string>, j: nat, limit: nat)
    requires j < 3 == |at| && TokensKept(b, at[..3], ts, limit)
    ensures |ts| == 3 && CStrAt(b, at[j]) == ts[j]
  {
    assert at[..3] == at;
    TokenIsCStr(b, at[j], ts[j], limit);
  }

  // ---------------------------------------------------------------------------------------------------------
  // Which endpoints parse.

  predicate Part(s: string) {
    s != "" && Clean(s, DELIMITER)
  }

  /** proto://host:port, then `tail`. */
  function Url(proto: string, host: string, port: string, tail: string): string {
    proto + "://" + (host + (":" + (port + tail)))
  }

  lemma {:induction false} SkipAll(seps: string, rest: string)
    requires forall k | 0 <= k < |seps| :: seps[k] in DELIMITER
    ensures Tokens(seps + rest, DELIMITER) == Tokens(rest, DELIMITER)
  {
    if seps == "" {
      assert seps + rest == rest;
    } else {
      assert (seps + rest)[1..] == seps[1..] + rest;
      SkipAll(seps[1..], rest);
    }
  }

  lemma PieceThen(w: string, seps: string, rest: string, text: string)
    requires Part(w) && (seps == "" ==> rest == "") && forall k | 0 <= k < |seps| :: seps[k] in DELIMITER
    requires text == w + (seps + rest)
    ensures Tokens(text, DELIMITER) == [w] + Tokens(rest, DELIMITER)
  {
    SkipAll(seps, rest);
    TokensOfPiece(w, seps + rest, DELIMITER);
  }

  lemma UrlTokens(proto: string, host: string, port: string, seps: string, rest: string)
    requires Part(proto) && Part(host) && Part(port) && (seps == "" ==> rest == "")
    requires forall k | 0 <= k < |seps| :: seps[k] in DELIMITER
    ensures Tokens(Url(proto, host, port, seps + rest), DELIMITER) == [proto, host, port] + Tokens(rest, DELIMITER)
  {
    var t1 := port + (seps + rest);
    var t2 := host + (":" + t1);
    var t3 := proto + ("://" + t2);
    assert Url(proto, host, port, seps + rest) == t3;
    PieceThen(port, seps, rest, t1);
    PieceThen(host, ":", t1, t2);
    PieceThen(proto, "://", t2, t3);
  }

  /** proto://host:port, with any number of slashes after it, is three pieces. */
  lemma WellFormedParses(proto: string, host: string, port: string, slashes: string)
    requires Part(proto) && Part(host) && Part(port)
    requires forall k | 0 <= k < |slashes| :: slashes[k] == '/'
    ensures Tokens(Url(proto, host, port, slashes), DELIMITER) == [proto, host, port]
    ensures ParseOf(Url(proto, host, port, slashes)) == Parsed(host, PortOf(port))
  {
    assert '/' in DELIMITER;
    UrlTokens(proto, host, port, slashes, "");
    assert slashes + "" == slashes;
  }

  /** What follows the port, from its first slash on, decides: the endpoint parses exactly if all of it is
      separators, and any path makes too many pieces. */
  lemma PathParsesIff(proto: string, host: string, port: string, tail: string)
    requires Part(proto) && Part(host) && Part(port)
    ensures ParseOf(Url(proto, host, port, "/" + tail))
            == if OnlySeparators(tail, DELIMITER) then Parsed(host, PortOf(port)) else TooManyPieces
  {
    UrlTokens(proto, host, port, "/", tail);
    NoTokensIff(tail, DELIMITER);
  }

  /** The documented form proto://host:port/.../ with any number of path segments. */
  lemma DocumentedPathIsTooMany(proto: string, host: string, port: string, path: string, rest: string)
    requires Part(proto) && Part(host) && Part(port) && Part(path)
    ensures ParseOf(Url(proto, host, port, "/" + (path + rest))) == TooManyPieces
  {
    PathParsesIff(proto, host, port, path + rest);
    assert (path + rest)[0] == path[0];
  }

  /** Without separators between, or with nothing but separators, there are not enough pieces. */
  lemma TooLittleToParse(s: string, proto: string, host: string, seps: string)
    requires Part(proto) && Part(host) && OnlySeparators(seps, DELIMITER)
    ensures ParseOf(s) == NoPieces <==> OnlySeparators(s, DELIMITER)
    ensures ParseOf(proto + seps) == TooFewPieces && ParseOf(proto + ("://" + (host + seps))) == TooFewPieces
  {
    NoTokensIff(s, DELIMITER);
    var t := host + (seps + "");
    assert host + seps == t && proto + seps == proto + (seps + "");
    PieceThen(proto, seps, "", proto + seps);
    PieceThen(host, seps, "", t);
    PieceThen(proto, "://", t, proto + ("://" + t));
  }

  // ---------------------------------------------------------------------------------------------------------
  // What is started.

  /** So for an endpoint proto://host:port. */
  lemma StartedIff(proto: string, host: string, port: string, slashes: string, c: ContextConfig, started: Started)
    requires Part(proto) && Part(host) && Part(port) && forall k | 0 <= k < |slashes| :: slashes[k] == '/'
    requires c.certFile == "" && c.privateFile == "" ==> c.trustFile != []
    requires started == StartedFor(c, ParseOf(Url(proto, host, port, slashes)))
    ensures StartsExactly(c, host, PortOf(port), started)
  {
    WellFormedParses(proto, host, port, slashes);
  }

  // ---------------------------------------------------------------------------------------------------------
  // Building the client's endpoint.

  function EndpointText(host: string, port: nat): string {
    "opc.tcp://" + host + ":" + Digits(port)
  }

  /** strcat_s of safestringlib: exact if the result fits, and always terminated. */
  method StrcatS(dest: array<char>, dmax: nat, src: string)
    requires dmax == dest.Length && HasNul(dest[..], 0) && NUL !in src
    modifies dest
    ensures HasNul(dest[..], 0)
    ensures |old(CStrAt(dest[..], 0))| + |src| < dmax ==> CStrAt(dest[..], 0) == old(CStrAt(dest[..], 0)) + src
  {
    var head := CStrAt(dest[..], 0);
    CStrEnds(dest[..], 0);
    var text := head + src;
    if |text| < dmax {
      StrcpyS(dest, dmax, text);
      assert forall k | 0 <= k < |text| + 1 :: dest[k] == dest[..|text| + 1][k] == (text + [NUL])[k];
      assert dest[..|text|] == text;
      CStrAtIs(dest[..], 0, text);
      assert dest[..][|text|] == NUL;
    }
  }

  /** The endpoint part of clientContextCreate. */
  method BuildClientEndpoint(endpoint: array<char>, hostname: string, port: nat)
    requires endpoint.Length == ENDPOINT_SIZE && NUL !in hostname && port < 1_000_000_000
    modifies endpoint
    ensures HasNul(endpoint[..], 0)
    ensures |EndpointText(hostname, port)| < ENDPOINT_SIZE ==> CStrAt(endpoint[..], 0) == EndpointText(hostname, port)
  {
    var portStr := new char[10];
    var opcuaProto := "opc.tcp://";
    StrcpyS(endpoint, |opcuaProto| + 1, opcuaProto);
    assert endpoint[..|opcuaProto|] == endpoint[..|opcuaProto| + 1][..|opcuaProto|] == opcuaProto;
    assert endpoint[..][|opcuaProto|] == endpoint[..|opcuaProto| + 1][|opcuaProto|] == NUL;
    CStrAtIs(endpoint[..], 0, opcuaProto);
    StrcatS(endpoint, ENDPOINT_SIZE, hostname);
    StrcatS(endpoint, ENDPOINT_SIZE, ":");
    PortStrFits(port);
    DigitsAreDigits(port);
    ConvertToString(portStr, port);
    StrcatS(endpoint, ENDPOINT_SIZE, CStrAt(portStr[..], 0));
  }

  /** The server-side parse undoes the client-side building exactly for a host that is one piece and a port that
      prints as something. */
  lemma EndpointRoundTripIff(host: string, port: nat)
    ensures ParseOf(EndpointText(host, port)) == Parsed(host, port) <==> Part(host) && port > 0
  {
    DigitsAreDigits(port);
    PortOfDigits(port);
    if Part(host) && port > 0 {
      EndpointTextIsUrl(host, port);
      WellFormedParses("opc.tcp", host, Digits(port), "");
    } else {
      OtherwiseNoRoundTrip(host, port);
    }
  }

  lemma EndpointTextIsUrl(host: string, port: nat)
    ensures EndpointText(host, port) == Url("opc.tcp", host, Digits(port), "")
  {
    assert "opc.tcp://" == "opc.tcp" + "://";
  }

  lemma OtherwiseNoRoundTrip(host: string, port: nat)
    requires !Part(host) || port == 0
    ensures ParseOf(EndpointText(host, port)) != Parsed(host, port)
  {
    var ts := Tokens(EndpointText(host, port), DELIMITER);
    TokensAreClean(EndpointText(host, port), DELIMITER);
    if Part(host) {
      var t := host + (":" + "");
      PieceThen(host, ":", "", t);
      PieceThen("opc.tcp", "://", t, EndpointText(host, port));
      assert |ts| == 2;
    } else {
      assert |ts| == 3 ==> ts[1] in ts;
    }
  }

  /** What a subscriber's endpoint becomes: whatever its protocol and trailing slashes, the client connects to the
      same host and the same port text under opc.tcp. */
  lemma ProtocolIsReplaced(proto: string, host: string, port: string, slashes: string)
    requires Part(proto) && Part(host) && LeadingZeroFree(port) && port != ""
    requires forall k | 0 <= k < |slashes| :: slashes[k] == '/'
    ensures var p := ParseOf(Url(proto, host, port, slashes));
            p.Parsed? && EndpointText(p.host, p.port) == Url("opc.tcp", host, port, "")
  {
    assert Clean(port, DELIMITER);
    WellFormedParses(proto, host, port, slashes);
    DigitsOfValue(port);
    PortOfDigits(Value(port));
    EndpointTextIsUrl(host, Value(port));
  }
}
