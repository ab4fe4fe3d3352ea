# OPC UA export bus: a verified model

The repository moves texts from an exporter to subscribers over OPC UA. This project models the publish/subscribe
path and everything that decides whether a text arrives: one global buffer behind every node, a topic registry with
a stale cache, a client that filters by searching for the topic name, arrays rebuilt on every reconnect, and the
string and number loops underneath. `dafny verify dfyconfig.toml` checks all of it.

| file | content |
|---|---|
| `CStrings.dfy` | C strings in buffers, `DBA_STRCPY`, `DBA_STRNCPY`, `strstr` |
| `Tokenizer.dfy`, `Decimal.dfy` | `strtok` in place; the decimal printer and its parsers |
| `Endpoint.dfy`, `Topics.dfy` | `ContextCreate`'s parse, the client's endpoint builder; the two-pass topic list |
| `Trim.dfy` | the C cut after the last `]`, the Python cut after the last `}`, the notification handler |
| `Registry.dfy`, `Lookup.dfy` | the server's topic registry; the client's search for a topic's node |
| `Client.dfy` | sessions, subscriptions, the parallel arrays, the client thread |
| `Streams.dfy` | generic lemmas: adjacent duplicates, sampled slots |
| `Protocol.dfy` | the step machine: register, overwrite, write, sample, deliver, lose, reconnect |
| `Refinement.dfy` | the imperative operations carry out the machine's steps, under any interleaving |
| `Exporter.dfy`, `PyQueue.dfy` | the exporter's fan-out under interleaving workers; the Python queue |
| `EndToEnd.dfy` | what a subscriber of the exporter is called with |

## Main results

- **Isolation** over every run and every interleaving: a callback carries the trimmed payload of an earlier publish
  attempt, and of its own topic unless some other topic's payload contains that topic's name. `CrossTalkHappens`
  builds, for any payload that does, a run of a single sequential publisher that breaks isolation.
- **No going back**: whatever is sampled, lost or recreated, an item's callbacks carry the trimmed payloads of publish
  attempts in the order in which these were made.
- **Completeness**, for each connection, whenever it begins: an item that from its first sample on is sampled after
  every overwrite, and loses nothing, is called with exactly the publish history from the text first seen on,
  without adjacent duplicates, trimmed and filtered, in order.
- **Exactly once**: with one exporter worker and two or more topics, such a connection of any topic's subscriber gets
  every message whose own text was published from its first sample on, once, in order and unchanged; `DueIff` says
  which messages these are, `EveryMessageOnce` when they are all, and `EveryTopicCanBeWatched` builds such a
  connection for every topic. With a single topic it gets the messages without adjacent repetitions, so all of them
  exactly if none equals the one before.
- **Refinement**: any schedule of publisher threads and reads on the publisher's globals, interleaved between the
  parts of `serverPublish`, is a run of the machine.
- **Registry**: in one namespace the cached string decides membership correctly after every history, even when
  library calls fail; over several namespaces the registry is right throughout exactly if the history has no stale
  hit, a condition on the publish calls alone.
- **Lookup** agrees with the registry exactly if the name fits the 100-byte buffer (or no long name shadows it); over
  several namespaces exactly if, besides, no other namespace has a topic cut to that name.
- **Resubscription**: whatever connects, drops and browse results occur, every iterate call on an active session has
  exactly one subscription, all arrays still belong, index by index, to the configurations given, and which arrays
  exist follows from the mallocs that succeeded. The thread survives failed connects: once the network is back it
  iterates on an active session.
- **Round trips**: the decimal printer and left-to-right parsing; endpoint building and parsing (exactly when); trim
  and trailing junk (exactly when); two-stage trimming (exactly when); topic lists as written and as parsed (exactly
  when).

## Assumptions

Concurrency and atomicity:

- The copy into the global buffer is one atomic step, although the code makes it outside `serverLock`; registration
  is one atomic step. Steps of different threads interleave freely.
- A monitored item reports a sampled value only when it differs from the one it sampled before, and its
  notifications are delivered first in, first out. The library may lose notifications and recreate items; both are
  steps of the machine.

Library behaviour:

- `UA_Server_getNodeContext` leaves its output alone for an unknown node. A freshly allocated `topicContext` equals
  no topic (`Unwritten`). Node contexts are strings, not addresses in the caller's memory.
- Only `UA_Client_connect` activates a session, and a connect that returns GOOD leaves it activated or already
  closed. Creating a subscription on a session that is not active fails.
- A browse below the objects folder lists the server's string-identified nodes in any order and grouping, among any
  other nodes. String identifiers are shorter than `PUBLISH_DATA_SIZE`.
- safestringlib: a copy that fits is exact, nothing beyond the limit is touched, the destination is left
  terminated in any case, and a bounded copy of no characters stores the empty string. `strtok`, `strstr` and `atoi`
  follow sections 7.21.5.8, 7.21.5.7 and 7.20.1.2 of ISO/IEC 9899:1999.
- The mallocs of `subArgs` and its two arrays succeed; those of the four item arrays may each fail.

Data:

- Strings hold no NUL. A payload fits if its length plus one is below `61*1024` (`Fits`); what a payload that does
  not fit leaves in the buffer is arbitrary.
- The bytes of a notification may run on into junk up to the next NUL; the junk is part of the model, and results
  that need it to be harmless say so (`CleanJunk`).

## Where the code differs from its documentation

- `OpcuaBusAbstraction/py/databusopcua.py:67` allows `proto://host:port/.../`. An endpoint parses exactly if what
  follows the port, from a slash on, is nothing but separators (`PathParsesIff`); any path segment is a fourth piece,
  for which `hostNamePort` has no slot (`DocumentedPathIsTooMany`).
- `OpcuaBusAbstraction/c/test/DataBus_test.c:53` shows a blank after the comma. Every name but the first then begins
  with a blank, so the list gives the intended names exactly if there is only one (`WrittenListIff`); in general a
  name begins with a blank exactly if the list does or a comma is followed by one (`BlankNameIff`).
- `OpcuaBusAbstraction/py/databusopcua.py:35-44` means to cut stray characters after a JSON object. Of an object that
  holds a `]`, only what ends in the last `}` before the last `]` arrives (`WhatIsLeftOfObject`), and nothing at all
  exactly if there is no such `}` (`LostIff`), as for `{"a":[1]}` (`JsonWithArrayIsLost`).
- The log line at `OpcuaBusAbstraction/c/open62541/src/open62541_wrappers.c:197`, that a topic already exists for a
  namespace, can be untrue of a second namespace (`SecondNamespaceIsMissed`).

## Model

| member | source | states |
|---|---|---|
| CStrings.DbaStrcpy | OpcuaBusAbstraction/c/open62541/include/open62541_wrappers.h:33-45 | a source strictly shorter than the destination and the payload limit is stored whole and terminated |
| CStrings.DbaStrncpy | OpcuaBusAbstraction/c/open62541/include/open62541_wrappers.h:47-58 | the destination holds the first `srclen` characters, cut so that the terminator fits |
| CStrings.OccursBetween | OpcuaBusAbstraction/c/open62541/src/open62541_wrappers.c:531 | a needle is found wherever it stands in a text |
| CStrings.OccurrenceSplits | OpcuaBusAbstraction/c/open62541/src/open62541_wrappers.c:531 | nothing else is an occurrence: what is found stands between two parts of the text |
| Trim.CopyTrimmed | OpcuaBusAbstraction/c/open62541/src/open62541_wrappers.c:521-530 | the backward scan and bounded copy leave exactly the received text cut after its last ']' and bounded by the buffer |
| Trim.SubscriptionCallback | OpcuaBusAbstraction/c/open62541/src/open62541_wrappers.c:508-538 | the user is called exactly when there is a monitor context, a scalar string, a callback and the topic occurs in the cut text; the call carries topic, cut text and user function |
| Trim.CTrimLongest | OpcuaBusAbstraction/c/open62541/src/open62541_wrappers.c:524-530 | the cut gives the longest prefix ending in ']', or everything if there is no ']' |
| Trim.CTrimIdentityIff | OpcuaBusAbstraction/c/open62541/src/open62541_wrappers.c:524-530 | the cut changes nothing exactly for a text without ']' or ending in it |
| Trim.CTrimIdempotent | OpcuaBusAbstraction/c/open62541/src/open62541_wrappers.c:524-530 | cutting twice is cutting once |
| Trim.JunkRemovedIff | OpcuaBusAbstraction/c/open62541/src/open62541_wrappers.c:521-530 | appended junk disappears exactly if it is empty, or holds no ']' while the message does |
| Trim.ExporterPayloadArrives | OpcuaExport.go:214 | a name and a text ending in ']' arrive unchanged behind any ']'-free junk and pass their own topic's filter |
| Trim.TwoStageTrim | OpcuaBusAbstraction/py/databusopcua.py:40-47 | the C cut then the Python cut give a prefix of the payload, and the payload itself exactly under the stated condition on its ends |
| Trim.PyTrimLongest | OpcuaBusAbstraction/py/databusopcua.py:40-44 | of a text starting with a brace the Python cut keeps the longest prefix ending in a closing brace, or nothing if there is none |
| Trim.WhatIsLeftOfObject | OpcuaBusAbstraction/py/databusopcua.py:40-47 | of an object both cuts leave the longest prefix ending in a closing brace that does not come after its last ']' |
| Trim.LostIff | OpcuaBusAbstraction/py/databusopcua.py:40-47 | a payload arrives empty exactly if it starts with a brace and has no closing brace before its last ']', or none at all when there is no ']' |
| Streams.SamplesAreHistory | OpcuaBusAbstraction/c/open62541/src/open62541_wrappers.c:446-458 | a slot that reports only changes and, from its first sample on, is sampled after each overwrite makes a handler accept exactly the deduplicated history from the value first seen |
| Streams.DedupInvisible | OpcuaExport.go:213-217 | a handler that refuses every adjacent repetition, as a topic filter does when another topic's text comes between, loses nothing to deduplication |
| Streams.DedupIdentityIff | OpcuaBusAbstraction/c/open62541/src/open62541_wrappers.c:451-458 | reporting only changes drops nothing exactly if no value equals the one before |
| Protocol.NextKeepsInv | OpcuaBusAbstraction/c/open62541/src/open62541_wrappers.c:440-466 | every step, lossy ones included, keeps buffer, queued notifications and past callbacks tied, in order, to the publish attempts |
| Protocol.RunKeepsInv | OpcuaBusAbstraction/c/open62541/src/open62541_wrappers.c:423-467 | the invariant holds after every run from a state that has it |
| Protocol.ReachableInv | OpcuaBusAbstraction/c/open62541/src/open62541_wrappers.c:423-467 | the invariant holds in every reachable state |
| Protocol.NothingBeforeRegistration | OpcuaBusAbstraction/c/open62541/src/open62541_wrappers.c:423-466 | in every run no item is sampled, queued for or called before its topic is registered |
| Protocol.ReconnectStartsConnections | OpcuaBusAbstraction/c/open62541/src/open62541_wrappers.c:679-696 | a reconnect creates every item anew and undoes no call |
| Protocol.AttemptsWereRequested | OpcuaBusAbstraction/c/open62541/src/open62541_wrappers.c:423-446 | nothing is written to the buffer under a topic and payload that no publish call asked for |
| Protocol.Isolation | OpcuaBusAbstraction/c/open62541/src/open62541_wrappers.c:508-538 | in every reachable state a callback carries the trimmed payload of an earlier attempt, its topic occurs in it, and the attempt was for that topic unless another topic's payload contains it |
| Protocol.CrossTalkHappens | OpcuaBusAbstraction/c/open62541/src/open62541_wrappers.c:143-156 | for any payload of another topic that contains the topic's name, a run of one sequential publisher, each topic once, in which that topic's subscriber is called with it |
| Protocol.CallsReadInOrder | OpcuaBusAbstraction/c/open62541/src/open62541_wrappers.c:515-532 | in every reachable state an item's callbacks are what the handler makes of the buffer's content at their recorded, non-decreasing times, followed by the junk of their own delivery |
| Protocol.NoGoingBack | OpcuaBusAbstraction/c/open62541/src/open62541_wrappers.c:440-466 | where the junk is cut away, an item's callbacks carry the trimmed payloads of publish attempts at non-decreasing positions, under arbitrary sampling, loss and reconnects |
| Protocol.RunKeepsFaithful | OpcuaBusAbstraction/c/open62541/src/open62541_wrappers.c:446-458 | for an item that was just created and loses nothing, calls since then plus those still queued are the calls for the deduplicated samples, at every point of every run |
| Protocol.Completeness | OpcuaBusAbstraction/c/open62541/src/open62541_wrappers.c:446-458 | in every connection an item sampled after every overwrite from its first sample on is called, once its queue is drained, with exactly the publish history from the text first seen, without adjacent duplicates, trimmed, filtered to its topic, in order |
| Refinement.Start | OpcuaBusAbstraction/c/open62541/src/open62541_wrappers.c:57-58 | a fresh server with its zeroed buffer represents an initial state of the machine |
| Refinement.Register | OpcuaBusAbstraction/c/open62541/src/open62541_wrappers.c:435-442 | a thread's registration is the register step, with the topic added exactly if it is known afterwards |
| Refinement.Overwrite | OpcuaBusAbstraction/c/open62541/src/open62541_wrappers.c:444-448 | its copy into the buffer is the overwrite step and one more attempt |
| Refinement.Perform | OpcuaBusAbstraction/c/open62541/src/open62541_wrappers.c:423-467 | whichever part of whichever thread's call, or poll of the data source, comes next is one step of the machine, and a poll reads what the machine samples |
| Refinement.Execute | OpcuaBusAbstraction/c/open62541/src/open62541_wrappers.c:423-467 | any schedule of any number of publisher threads and polls is a run of the machine |
| Refinement.Publish | OpcuaBusAbstraction/c/open62541/src/open62541_wrappers.c:423-467 | an undisturbed `serverPublish` is the three steps of an idle thread and adds one attempt whatever the library answers |
| Refinement.Read | OpcuaBusAbstraction/c/open62541/src/open62541_wrappers.c:143-156 | whichever topic's node is read, the data source answers with the payload of the last attempt, for whatever topic, if that fits; and that is what sampling the item takes in |
| Refinement.Deliver | OpcuaBusAbstraction/c/open62541/src/open62541_wrappers.c:508-538 | the notification handler makes exactly the call of the deliver step |
| Decimal.ConvertToString | OpcuaBusAbstraction/c/open62541/src/open62541_wrappers.c:81-98 | the counting and filling loops together leave the number's digits and a NUL, and nothing after it changes |
| Decimal.DigitMeaning | OpcuaBusAbstraction/c/open62541/src/open62541_wrappers.c:91-95 | which character each digit is, what it is worth alone, and that zeros in front do not count |
| Decimal.ValueOfDigits | OpcuaBusAbstraction/c/open62541/src/open62541_wrappers.c:86-96 | parsing what was printed gives the number back |
| Decimal.DigitsOfValue | OpcuaBusAbstraction/c/open62541/src/open62541_wrappers.c:86-96 | printing the value of any digit string without leading zero gives that string back |
| Decimal.DigitCount | OpcuaBusAbstraction/c/open62541/src/open62541_wrappers.c:86-90 | a number takes at most k digits exactly if it is below ten to the k |
| Decimal.PortStrFits | OpcuaBusAbstraction/c/open62541/src/open62541_wrappers.c:797 | the ten-byte port buffer holds the digits and their NUL exactly for numbers below 10^9 |
| Decimal.StrToInt | OpcuaBusAbstraction/c/test/unittest/UnitTests_DBA.cpp:36-43 | the left-to-right loop computes the value of the leading digits |
| Decimal.PortOfDigits | OpcuaBusAbstraction/c/DataBus.c:33-34 | `abs(atoi(...))` of the printed port is the port |
| Decimal.PortOfText | OpcuaBusAbstraction/c/DataBus.c:33-34 | blanks, a sign and digits before anything else give the digits' value, whatever the sign |
| Tokenizer.StrTok | OpcuaBusAbstraction/c/DataBus.c:25-29 | one in-place call yields the next token, terminated in the buffer, leaves earlier bytes alone, and what remains holds the remaining tokens |
| Tokenizer.TokensOfPiece | OpcuaBusAbstraction/c/DataBus.c:25-30 | a non-empty separator-free piece followed by a separator or the end is exactly one token, so tokens are maximal |
| Tokenizer.TokensAtSeparator | OpcuaBusAbstraction/c/DataBus.c:25-30 | a separator splits the token list: tokens before it, then tokens after it |
| Tokenizer.TokensAreClean | OpcuaBusAbstraction/c/DataBus.c:25-30 | every token is non-empty and free of separators |
| Tokenizer.NoTokensIff | OpcuaBusAbstraction/c/DataBus.c:25-26 | a string has no token exactly if all its characters are separators |
| Endpoint.SplitEndpoint | OpcuaBusAbstraction/c/DataBus.c:22-30 | the loop fills the slots with the tokens in order, each still standing in the buffer at the end, or reports a fourth piece exactly if there is one |
| Endpoint.ContextCreate | OpcuaBusAbstraction/c/DataBus.c:15-61 | host and port are the second and third token; a server or client, plain or secured, is started exactly for the direction and the certificate fields that ask for it, with the given certificates, and nothing for another direction or endpoint |
| Endpoint.StartedIff | OpcuaBusAbstraction/c/DataBus.c:35-55 | for proto://host:port, exactly when each kind of context is started, in terms of direction and certificate fields |
| Endpoint.TooLittleToParse | OpcuaBusAbstraction/c/DataBus.c:26-31 | an endpoint has no piece exactly if it is all separators, and too few without a host or a port |
| Endpoint.WellFormedParses | OpcuaBusAbstraction/c/DataBus.c:22-34 | proto://host:port with any number of trailing slashes is three pieces and parses to that host and port |
| Endpoint.PathParsesIff | OpcuaBusAbstraction/c/DataBus.c:22-33 | with anything after the port's slash, the endpoint parses to host and port exactly if that is all separators, and has too many pieces otherwise |
| Endpoint.DocumentedPathIsTooMany | OpcuaBusAbstraction/py/databusopcua.py:66-69 | an endpoint with any number of path segments, as documented, has too many pieces |
| Endpoint.BuildClientEndpoint | OpcuaBusAbstraction/c/open62541/src/open62541_wrappers.c:797-802 | the buffer holds opc.tcp://, host, colon and decimal port whenever that text fits, and is terminated in any case |
| Endpoint.EndpointRoundTripIff | OpcuaBusAbstraction/c/open62541/src/open62541_wrappers.c:797-802 | parsing the built endpoint gives host and port back exactly for a non-empty host without separators and a positive port |
| Endpoint.ProtocolIsReplaced | OpcuaBusAbstraction/c/DataBus.c:22-34 | whatever the given protocol and trailing slashes, the client connects to the same host and port text under opc.tcp |
| Topics.CountTopics | OpcuaBusAbstraction/c/test/DataBus_test.c:84-89 | the first pass counts the comma-separated tokens |
| Topics.FillTopics | OpcuaBusAbstraction/c/test/DataBus_test.c:93-111 | the second pass fills every entry, in bounds and in order, with namespace and type |
| Topics.TokenizeTopics | OpcuaBusAbstraction/c/test/DataBus_test.c:79-111 | both passes see the same tokens: the array has one entry for each field of the given list, in order |
| Topics.BlankNameIff | OpcuaBusAbstraction/c/test/DataBus_test.c:84-111 | for any list, some topic's name begins with a blank exactly if the list does or a comma is followed by a blank |
| Topics.WrittenListIff | OpcuaBusAbstraction/c/test/DataBus_test.c:53 | names written with a given text after each comma come out with it in front of all but the first, and so as intended exactly if that text is empty or there is one name |
| Registry.ServerContext.AddTopicDataSourceVariable | OpcuaBusAbstraction/c/open62541/src/open62541_wrappers.c:167-223 | namespace table, nodes, cached context and index after the call, for every outcome of the library calls |
| Registry.ServerContext.ServerPublish | OpcuaBusAbstraction/c/open62541/src/open62541_wrappers.c:423-467 | without a server nothing changes; otherwise the topic is registered, the one buffer holds the data whether or not the write succeeds, the node written is the topic's under its namespace's index, and the write's status is returned |
| Registry.ServerContext.Register | OpcuaBusAbstraction/c/open62541/src/open62541_wrappers.c:435-442 | the cached context is allocated if missing and the registry is the one after this publish |
| Registry.RegisteredAfterIff | OpcuaBusAbstraction/c/open62541/src/open62541_wrappers.c:167-223 | unless the cache misleads it, the topic has a node afterwards exactly if it had one or the library calls needed succeed, no other topic is touched, and the index returned is the namespace's, under which the node stands |
| Registry.CacheIsRegistered | OpcuaBusAbstraction/c/open62541/src/open62541_wrappers.c:190-201 | after any history in one namespace, failed library calls included, the cached context is unset or a registered topic |
| Registry.ExistsTestIsMembership | OpcuaBusAbstraction/c/open62541/src/open62541_wrappers.c:190-201 | after any such history the string comparison says exactly whether the topic has a node |
| Registry.KnownIsPublished | OpcuaBusAbstraction/c/open62541/src/open62541_wrappers.c:167-223 | a topic is registered exactly if it was published, under an index fixed at the first publish |
| Registry.EachTopicAddedOnce | OpcuaBusAbstraction/c/open62541/src/open62541_wrappers.c:203-223 | the nodes are the distinct topics published, in order of their first publish |
| Registry.RegistryAgreesIff | OpcuaBusAbstraction/c/open62541/src/open62541_wrappers.c:190-201 | over any namespaces the registry follows the publishes throughout exactly if no new topic meets its own name in the cache |
| Registry.SecondNamespaceIsMissed | OpcuaBusAbstraction/c/open62541/src/open62541_wrappers.c:190-201 | a topic published twice in one namespace is not added when published in another |
| Lookup.GetNamespaceIndex | OpcuaBusAbstraction/c/open62541/src/open62541_wrappers.c:100-139 | the nested loops return the index of the first string node whose cut identifier is the topic, or 0 |
| Lookup.FirstMatchAt | OpcuaBusAbstraction/c/open62541/src/open62541_wrappers.c:115-134 | for any references, the first string node whose cut identifier is the topic gives its own index |
| Lookup.NoMatchIsZero | OpcuaBusAbstraction/c/open62541/src/open62541_wrappers.c:135-138 | the answer is 0 if no string node is cut to the topic |
| Lookup.LookupAgreesIff | OpcuaBusAbstraction/c/open62541/src/open62541_wrappers.c:115-138 | the search gives the index chosen at registration, or 0 for a topic never published, exactly if the name fits the identifier buffer or no long published name begins with it |
| Lookup.LookupAgreesThroughoutIff | OpcuaBusAbstraction/c/open62541/src/open62541_wrappers.c:115-138 | after a history over any namespaces in which the registry is right, the search agrees with it for every listing exactly if the topic fits and no publish of another namespace is cut to its name, or, if unpublished, none is |
| Client.OneSubscriptionPerSession | OpcuaBusAbstraction/c/open62541/src/open62541_wrappers.c:666-703 | whatever fails and drops, an iterate call on an active session finds exactly one accepted subscription of that session |
| Client.IteratesKeepInv | OpcuaBusAbstraction/c/open62541/src/open62541_wrappers.c:670-700 | at every iterate call subscriptions belong to different sessions and an active session owns the last one |
| Client.TurnOutcome | OpcuaBusAbstraction/c/open62541/src/open62541_wrappers.c:676-697 | a turn retries exactly on a failed connect, stops exactly on a refused subscription, connects only a closed session, and adds one subscription exactly when that session is active and accepted |
| Client.Recovers | OpcuaBusAbstraction/c/open62541/src/open62541_wrappers.c:670-700 | after any failed connects and lost sessions the thread goes on, and iterates on an active session once the network is back |
| Client.ClientContext.Allocate | OpcuaBusAbstraction/c/open62541/src/open62541_wrappers.c:556-568 | only arrays that are still NULL are replaced, by those whose malloc succeeds; all have one slot per topic |
| Client.ClientContext.FillSlot | OpcuaBusAbstraction/c/open62541/src/open62541_wrappers.c:584-603 | one slot of every array gets the topic's node, handler, context and monitor entry; other slots stay |
| Client.ClientContext.FillArrays | OpcuaBusAbstraction/c/open62541/src/open62541_wrappers.c:576-604 | every array agrees, index by index, with the topic configurations and the namespace indices found |
| Client.ClientContext.CreateSubscription | OpcuaBusAbstraction/c/open62541/src/open62541_wrappers.c:541-629 | a refused subscription changes nothing; an accepted one is recorded for the session, the arrays there were or that malloc provides exist, and they agree with the configurations |
| Client.ProvisionsStay | OpcuaBusAbstraction/c/open62541/src/open62541_wrappers.c:556-568 | over any run of the client thread an array, once there, stays |
| Client.ProvidedIff | OpcuaBusAbstraction/c/open62541/src/open62541_wrappers.c:556-568 | a turn leaves the arrays there were and, if it subscribes again, those its mallocs provide, and no others |
| Client.RoutedServes | OpcuaBusAbstraction/c/open62541/src/open62541_wrappers.c:584-603 | arrays that agree with the configurations serve the subscriber: the i-th context calls the user function given, exactly for received texts with the i-th topic in them and only if a callback was given, and the i-th item is for that topic's node under the index kept |
| Client.ClientContext.ClientSubscribe | OpcuaBusAbstraction/c/open62541/src/open62541_wrappers.c:828-870 | succeeds exactly with a client, an accepted subscription and a thread; then configurations, callback and user function are those given, the arrays that malloc provided exist, agree and serve the subscriber |
| Client.ClientContext.Reconnect | OpcuaBusAbstraction/c/open62541/src/open62541_wrappers.c:680-696 | connects, resubscribes only on an active session, and keeps the arrays' agreement in every outcome |
| Client.ClientContext.RunTurn | OpcuaBusAbstraction/c/open62541/src/open62541_wrappers.c:670-699 | one turn of the loop follows the session model, leaves exactly the arrays there were or that a resubscription's mallocs add, and keeps their agreement |
| Client.ClientContext.RunClient | OpcuaBusAbstraction/c/open62541/src/open62541_wrappers.c:666-703 | at every iterate call of every run exactly the arrays provided so far exist, and they agree, index by index, with the configurations given; and the thread recovers once the network is back |
| Client.ClientContext.SubscribeAndRun | OpcuaBusAbstraction/c/open62541/src/open62541_wrappers.c:828-870 | from a first connect on: at every iterate call the arrays that malloc provided are there, agree with the configurations given and serve the subscriber, an active session has exactly one subscription, and the thread recovers once the network is back |
| Exporter.OpcuaExport.Publish | OpcuaExport.go:207-218 | appends one publish call per configured topic, in order, with name, blank and data |
| Exporter.FanOutUnderInterleaving | OpcuaExport.go:195-217 | under any schedule of any number of workers, one worker's calls are the full fan-outs of its finished messages, in order, and a beginning of that of its current one; no message that arrived for it is lost |
| Exporter.CallsAreExports | OpcuaExport.go:213-215 | every publish call of every run carries a configured topic and, as text, that topic, exactly one blank and the data of a message that arrived for its worker |
| Exporter.MessageFinished | OpcuaExport.go:195-217 | an idle worker's next turns take the front message, publish all of it, and leave the worker idle with the message finished |
| PyQueue.Conservation | OpcuaBusAbstraction/py/databus.py:41-52 | items handed over followed by items queued are the items enqueued, in order, and unfinished ones are those queued plus those whose callback raised |
| PyQueue.Drains | OpcuaBusAbstraction/py/databus.py:41-52 | each turn hands over the front item, whatever raises, so that n turns hand over exactly the first n items |
| PyQueue.HandsOverWhole | OpcuaBusAbstraction/py/databusopcua.py:32-47 | messages that need no cut reach the user as they are, topic and text, in order, after one turn each |
| PyQueue.Subscription.CbFunc | OpcuaBusAbstraction/py/databusopcua.py:32-47 | enqueues the topic and the cut message; an empty message raises and enqueues nothing |
| PyQueue.Subscription.WorkerTurn | OpcuaBusAbstraction/py/databus.py:41-52 | takes the front item and hands it over; reports it done only if the callback does not raise |
| EndToEnd.OccursInExportIff | OpcuaExport.go:214 | a name without a blank occurs in another topic's export exactly if it occurs in that topic's name or in the data |
| Exporter.FanOutsByPosition | OpcuaExport.go:207-218 | publish call k of a worker is for topic k mod n and message k div n |
| Exporter.SingleWorkerHistory | OpcuaExport.go:195-217 | with one worker the whole publish history is a beginning of those calls for the messages that arrived, and all of them once it is idle |
| EndToEnd.DueIff | OpcuaExport.go:213-217 | a message is due after e texts exactly if its text for the topic is among them |
| EndToEnd.Stretch | OpcuaExport.go:213-217 | any stretch of the export makes a topic's subscriber accept exactly the messages whose own text lies in it |
| EndToEnd.ExactlyOnce | OpcuaExport.go:195-217 | one worker, two or more topics: any connection of any topic's subscriber, drained, was called for every message whose own text was published from its first sample on, exactly once, in order, unchanged |
| EndToEnd.EveryMessageOnce | OpcuaExport.go:195-217 | it was called for every message that arrived, if all have been published and its first sample came no later than its topic's first text |
| EndToEnd.EveryTopicCanBeWatched | OpcuaExport.go:195-217 | for every topic, late ones included, a run in which its subscriber meets all that exactly-once delivery asks for |
| EndToEnd.SingleTopicDropsRepeats | OpcuaExport.go:195-217 | with one topic such a connection is called for the messages without adjacent repetitions, and for all of them exactly if none equals the one before |
| EndToEnd.PythonKeepsExportIff | OpcuaBusAbstraction/py/databusopcua.py:40-47 | the Python side leaves an exported text alone exactly if the topic's name does not start with a brace |
| EndToEnd.SubscriptionFindsNodes | OpcuaBusAbstraction/c/open62541/src/open62541_wrappers.c:576-604 | for a published topic whose name fits, the item, its context and its topic all belong to the node that the server registered |

## Left out

- open62541, mbedTLS and safestringlib internals: only the small contracts listed under the assumptions.
- Certificate loading, secured context creation beyond its dispatch, file input and output, base64 and the
  configuration manager in `NewOpcuaExport`: plumbing over libraries that are not part of this model.
- `gDirection` and `ContextDestroy`: "PUB" is an exact fit in a four-byte array, so the outcome depends on `strcpy_s`.
- Freeing of memory, shutdown without joining threads, byte-level data races on the buffer, and a second
  `clientSubscribe` with more topics than the first.
- The `createDataChanges` request itself and its per-item results: the model ends with the arrays handed to it.
- Go `Subscribe` and the commented-out `receive`, cgo and Cython glue, logging, the `startTopic` and `stopTopic`
  stubs, Docker, Helm and Makefiles.
- The Python `DataBus` class's bus type, direction and mutex; the worker's stop event; UTF-8 decoding, taken as the
  identity.
- CStrings.DbaStrcpy: of a source that is not strictly shorter it promises a terminated destination and no content,
  since the limit handed to `strcpy_s` is one below the size.
- Decimal.ConvertToString: covers non-negative numbers that the destination holds; negative ones are not modelled,
  and 0 prints as the empty string, as in the code. Overflow in `atoi` is undefined and not modelled.
- Endpoint.BuildClientEndpoint: ports below 10^9 only, since more digits do not fit the ten-byte buffer, and no
  content when the whole text does not fit its buffer.
- Endpoint.ContextCreate: a fourth piece, and a slot never written, are reported as `TooManyPieces` and
  `TooFewPieces`; what the C code does with memory in these cases is undefined.
- Protocol.Completeness: ends where the library loses one of the item's notifications or recreates the item, at which
  a new connection begins; what was published between two connections is not promised. Isolation and order hold
  throughout.
- Topics.TokenizeTopics: topic lists strictly shorter than the temporary buffer.
