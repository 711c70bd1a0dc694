# A verified model of the communicator

The communicator keeps a connection to a server, shows its user a password, and relays remote-desktop
traffic. This project models the logic of its own that carries unbounded properties, and proves them with
Dafny. `dafny verify dfyconfig.toml` checks everything.

| file | models |
|---|---|
| Wrappers.dfy, Utf8.dfy, Hex.dfy, Bits.dfy | an option type, Go's strings and `range`, hexadecimal digits, exclusive or |
| PasswordCodec.dfy | `controlNum`, `EncXOR`, `DecXOR`: length prefix, cyclic key, checksum, padding |
| PasswordStore.dfy | `GetPass`, `SetPass` and the handlers that set, show and check the password, over runs with restarts |
| Base64.dfy | the web panel's Base64 over UTF-8 |
| Framing.dfy | the read loops, for any decoder and any chunking |
| JsonTokens.dfy, MessageCodec.dfy | the JSON text of messages: the writer, and the decoder for the texts the reader cuts out |
| InsideOut.dfy, MessageStream.dfy | what becomes of a message with a brace in a string, and exactly what gets through a stream |
| Contacts.dfy | the percent-encoded contact list inside a message |
| Dispatch.dfy | six tokens shared by all readers and their handlers, and negative message numbers |
| HideShow.dfy | the counter of live connections and its broadcasts to the panels |
| Sessions.dfy, Relay.dfy | the hand-over of connection pairs and the relays, as interleaved steps and as the loop itself |
| Agents.dfy | the table of relay agents: sort, removal, route |
| Update.dfy | the renames and rollbacks of a self-update |

A Go string is a sequence of bytes, a JavaScript string a sequence of 16-bit units. Code that changes state is
a method of a class, proved against a specification (a function or a relation between the old and the new
state), and the results are lemmas about that specification. What runs concurrently is a state machine whose
events are the steps of the threads; a run is any sequence of enabled events, with any number of threads.
A run-time panic is an outcome of its own. Pings, padding, chunk sizes, the results of system calls and all
scheduling are arbitrary. SHA-256 is an arbitrary function passed to the lemmas that need it.

## What the code does not do

Some expectations turn out false, and the lemmas say exactly when they hold.

- A password comes back from the codec under every padding only if it is ASCII and has at most 127 bytes
  (`PasswordCodec.RoundTripExactly`). Any other password set by the user works until the process ends
  (`PasswordStore.WorksUntilTheEnd`) and may be lost with it (`PasswordStore.SurvivesRestartExactly`).
- `DecXOR` compares the index of the checksum with `<=`, so that a length prefix that points just behind the
  decoded bytes panics; `PasswordCodec.UnderOtherPid` says when a change of the Pid leads there.
  `SetPass` before the Pid is known divides by zero (`PasswordStore.Store.SetPass`), which is what the
  `-password` flag does at start-up.
- The Base64 pair changes CR LF into LF (`Base64.RoundTripExactly`).
- A closing brace in a string loses the message (`MessageStream.AllArriveExactly`), and it may let loose an
  empty message with number 0, which a client takes for the order to drop its connection to the server: the
  string `}{}` does (`MessageStream.StrayExample`, `MessageStream.InjectsExactly`).
- A negative message number is out of range in the dispatch. From a panel it ends the process,
  from the server it ends the loop that connects to it, which nothing starts again
  (`Dispatch.NegativeEndsProcess`).
- A show message decided on before a new connection can arrive after that connection's hide message
  (`HideShow.LateMessage`, `HideShow.OverlappingUnmasks`); it cannot if no connection begins while one
  is still to be sent (`HideShow.MaskedUnlessOverlapping`).
- What the VNC server sends can reach the relay server before the code that names the session, if the greeting is
  held up for longer than the sleep of 250 ms in front of the relay loops (internal/pkg/processor/main.go:347 and 503)
  (`Sessions.DataBeforeCode`, `Sessions.CodeFirstExactly`).
- A duplicate of an agent survives its removal when the first and the last entry have its address
  (`Agents.RemovedExactly`), and no route is chosen while the first entry is unreachable
  (`Agents.RouteAfterRefresh`).
- A second update can delete the only copy that a first one left (`Update.SecondUpdate`, `Update.LostInTwo`).

## Model

| member | source | states |
|---|---|---|
| PasswordCodec.ControlNum | internal/pkg/common/utils.go:47-55 | The loop over the characters computes the sum of the code points modulo 100, for any byte string, malformed UTF-8 included |
| PasswordCodec.RandomString | internal/pkg/common/utils.go:169-180 | A string of the asked length over the letters A to Y, and nothing more is known about it |
| PasswordCodec.EncXOR | internal/pkg/common/utils.go:365-388 | For every text and every non-empty key an even number of digits, 48 or more, with random padding of exactly the missing length; for ASCII text of at most 127 bytes they hold the length and the text under the cyclic key and the sum modulo 100, and decrypt to the text |
| PasswordCodec.StoredBytes | internal/pkg/common/utils.go:365-388 | For any valid text the stored bytes are the length and the characters modulo 256, each `^` the key byte at its offset in the UTF-8 text modulo the length of the key, then the sum modulo 100, then the padding |
| PasswordCodec.DecryptedExactly | internal/pkg/common/utils.go:390-413 | For any two strings what is read: every decoded byte `^` the cyclic key byte, written as UTF-8, whose first byte says how many follow and where the checksum is compared |
| PasswordCodec.MaskedIsRead | internal/pkg/common/utils.go:395-413 | Bytes that hold a length and an ASCII text under the cyclic key are read as the text if the next byte is the sum modulo 100, and refused otherwise |
| PasswordCodec.SumRepeated | internal/pkg/common/utils.go:47-55 | The sum of n times the same character is n times its value |
| PasswordCodec.DecXOR | internal/pkg/common/utils.go:390-413 | For every two strings the answer, the refusal or the run-time panic the source produces, with the one-byte to two-byte widening of decrypted bytes |
| PasswordCodec.RoundTrip | internal/pkg/common/utils.go:365-413 | ASCII text of at most 127 bytes is decrypted to itself under every non-empty key and every padding |
| PasswordCodec.RoundTripExactly | internal/pkg/common/utils.go:365-413 | A valid UTF-8 password comes back under every padding if and only if it is ASCII and has at most 127 bytes; all others fail for some padding |
| PasswordCodec.TooLong | internal/pkg/common/utils.go:369-374 | From 128 bytes on no padding at all gives the password back |
| PasswordCodec.NotAscii | internal/pkg/common/utils.go:373-388 | For a password with a non-ASCII character a padding is constructed under which it does not come back |
| PasswordCodec.EncryptedShape | internal/pkg/common/utils.go:379-387 | A stored password is an even number of hexadecimal digits, 48 or more |
| PasswordCodec.ChecksumDetects | internal/pkg/common/utils.go:401-408 | One replaced encrypted character that decrypts to an ASCII character is reported, unless old and new character differ by 0 or 100, and then the new text is accepted |
| PasswordCodec.UnderOtherPid | internal/pkg/common/utils.go:395-404 | An ASCII password of at most 127 bytes read under another Pid indexes out of range exactly when the first characters of the Pids turn its length into that of everything decoded less one, as an ASCII character |
| PasswordCodec.GeneratedUnderOtherPid | internal/pkg/common/utils.go:395-404 | For the six characters of a generated password that other length is 39 |
| Bits.XorCancels | internal/pkg/common/utils.go:375-397 | Exclusive or with the same key byte twice gives the byte back |
| Bits.XorIsCaret | internal/pkg/common/utils.go:375-397 | The exclusive or, computed digit by digit, is the operator `^` on bit vectors of eight bits |
| Hex.RoundTrip | internal/pkg/common/utils.go:376-383 | Two lower-case digits per byte are read back to the bytes they encode |
| Hex.EncodedDigits | internal/pkg/common/utils.go:376-383 | The two digits of byte i stand at 2i and 2i + 1, the high one first, from 0123456789abcdef |
| Hex.DecodeFails | internal/pkg/common/utils.go:392-394 | Decoding is refused exactly for an odd length or a character that is no hexadecimal digit |
| Utf8.DecodeRune | internal/pkg/common/utils.go:50-52 | One step of ranging over a string: the width is one to four bytes and never beyond the end, ASCII is itself |
| Utf8.RunesOfEncode | internal/pkg/common/utils.go:369-373 | Turning characters into bytes and ranging over the bytes gives the characters back (section 3 of RFC 3629) |
| Utf8.OctetForms | internal/pkg/common/utils.go:369-373 | One to four bytes by the value of the character, in the ranges and with the payload bits of the table of section 3 of RFC 3629 |
| Utf8.SameLengthOnlyAscii | internal/pkg/common/utils.go:369-374 | A valid string has as many bytes as characters if and only if it is ASCII |
| PasswordStore.Store.GetPass | internal/pkg/processor/common.go:216-247 | Without a Pid three stars and two letters, else the cached, else the decrypted, else a newly generated password; a panic only where the decryption panics; at most two rounds of the loop |
| PasswordStore.Store.SetPass | internal/pkg/processor/common.go:249-252 | The text is cached and stored encrypted; without a Pid the key is empty and the call panics |
| PasswordStore.Store.ProcessAuth | internal/pkg/processor/handlers.go:37-66 | The Pid is taken over, a first password is made if none is stored, and the password GetPass returns is shown; a short message changes nothing |
| PasswordStore.Store.ProcessLocalInfo | internal/pkg/processor/handlers.go:304-333 | Five stars and no change while somebody is connected; otherwise a given text is set, cached and shown, the word random makes it six drawn letters, no text shows what the stored password decrypts to, and setting without a Pid panics |
| PasswordStore.Store.ProcessConnect | internal/pkg/processor/handlers.go:99-103 | A request passes if and only if GetPass returned and the digest fits or the role is not server |
| PasswordStore.StepKeeps | internal/pkg/processor/common.go:216-252 | Every event keeps a non-empty cached password equal to the decryption of the stored one, and only SetPass and a reset change what is stored |
| PasswordStore.RunCoherent | internal/pkg/processor/common.go:216-252 | The same in every state of every run with one Pid and ASCII passwords of at most 127 bytes |
| PasswordStore.RunStores | internal/pkg/processor/common.go:216-252 | What the stored password decrypts to stays the same over any stretch of a run without SetPass and reset |
| PasswordStore.ShownIsChecked | internal/pkg/processor/handlers.go:62-103 | The password shown or set at one step, by the client or for a panel, is what every later GetPass returns, what panels are shown and what every later digest is checked against, across restarts and renewed authorisations, until it is set again or reset |
| PasswordStore.WorksUntilTheEnd | internal/pkg/processor/common.go:221-223 | Any password that was set, whatever its characters, is what every later GetPass returns and requests are checked against, and nothing panics, until it is set again, the options are reset or the process ends |
| PasswordStore.StarredBeforePid | internal/pkg/processor/common.go:219-221 | Before the Pid is known every request is answered and checked with three stars and two letters, never with a cached password of another shape, and a panel cannot set one |
| PasswordStore.ResetDraws | internal/pkg/processor/common.go:216-247 | After a reset of the options nothing is stored or cached, and GetPass draws six letters |
| PasswordStore.SurvivesRestartExactly | internal/pkg/processor/common.go:216-252 | After SetPass, a restart and a new authorisation GetPass returns the password again, whatever padding was drawn, if and only if it is ASCII and has at most 127 bytes |
| Base64.Utf8Encode | internal/pkg/web/resources/common.js:116-138 | The loop produces the one-, two- and three-octet form of every code unit of the text after its CR LF pairs became LF |
| Base64.Utf8Decode | internal/pkg/web/resources/common.js:141-167 | The loop decodes any sequence of units, reading past the end as 0 |
| Base64.Encode | internal/pkg/web/resources/common.js:45-76 | The loop over groups of three is the group-wise encoding, with padding where an octet is missing |
| Base64.Decode | internal/pkg/web/resources/common.js:79-113 | The loop over groups of four decodes any text, foreign characters dropped, missing characters read as index 0 |
| Base64.UnitRoundTrip | internal/pkg/web/resources/common.js:119-163 | Every 16-bit unit, lone surrogates included, is recovered from its octets whatever follows them |
| Base64.QuadRoundTrip | internal/pkg/web/resources/common.js:58-105 | A group of one, two or three octets is recovered from its four characters |
| Base64.RoundTrip | internal/pkg/web/resources/common.js:45-113 | Decoding an encoded text gives the text with each CR LF replaced by LF in one pass, for every sequence of 16-bit units |
| Base64.RoundTripExactly | internal/pkg/web/resources/common.js:45-118 | The text itself comes back if and only if it contains no CR LF |
| Base64.LineEndReplaced | internal/pkg/web/resources/common.js:117 | Each CR LF becomes LF whatever stands around it |
| Base64.UnitForms | internal/pkg/web/resources/common.js:124-133 | The one-, two- and three-octet forms of a unit as numbers |
| Base64.DecodedForms | internal/pkg/web/resources/common.js:146-163 | What the first octet says about how many follow and how their values combine, also for malformed text and past the end |
| Base64.Alphabet | internal/pkg/web/resources/common.js:42 | The 65 characters of the alphabet in their order |
| Base64.ShortGroup | internal/pkg/web/resources/common.js:89-107 | A last group of two or three characters is decoded as if the first character of the alphabet followed |
| Base64.EncodedShape | internal/pkg/web/resources/common.js:63-71 | Length four times the number of groups, alphabet characters only, and the padding character exactly at the last 0, 1 or 2 places (section 4 of RFC 4648) |
| Base64.GroupIsConcatenation | internal/pkg/web/resources/common.js:58-61 | The four indices side by side are the three octets side by side, as 24-bit numbers |
| Base64.ForeignIgnored | internal/pkg/web/resources/common.js:85-107 | Any foreign characters put before, between and after the characters of any text leave what it decodes to unchanged; for an encoded text that is the text that was encoded |
| Framing.Reader.Take | internal/pkg/processor/main.go:120-137 | One piece: garbage before the first brace is cut off, a piece without one or one that does not parse is skipped, a message is handed on |
| Framing.Reader.Feed | internal/pkg/processor/main.go:110-137 | After any chunk the unfinished piece and the messages handed on are those of the bytes seen so far |
| Framing.Reader.Receive | internal/pkg/processor/main.go:217-247 | After any list of chunks the result depends on their concatenation only |
| Framing.SplitStream | internal/pkg/processor/main.go:110-111 | Messages and unfinished piece of a concatenation are those of the first part continued with the second, for any decoder |
| Framing.RoundTrip | internal/pkg/processor/main.go:110-137 | For any encoder and decoder that agree on single messages and produce one closing brace at the end, the messages written are the messages delivered, in order |
| Framing.Resynchronises | internal/pkg/processor/main.go:120-137 | After any garbage every message but the first is delivered, and the first too unless an opening brace is left behind the last closing one of the garbage, for any such pair |
| Framing.FramesApart | internal/pkg/processor/main.go:110-137 | What a reader hands on from a stream is what each message gives on its own, in order, for any decoder and whatever the messages contain, as long as each ends with a closing brace |
| MessageCodec.RoundTrip | internal/pkg/processor/common.go:418-422 | Every message, whatever its 64-bit number and its strings, is read back from the text the writer produces (escapes as in section 7 of RFC 8259) |
| MessageCodec.EscapeRoundTrip | internal/pkg/processor/common.go:422 | Every character is read back from its escaped form or its UTF-8 bytes, whatever follows |
| MessageCodec.IntRoundTrip | internal/pkg/processor/common.go:422 | Every 64-bit number is read back as itself from its decimal digits |
| MessageCodec.MessageForm | internal/pkg/processor/common.go:201-204 | The bytes of a message around its number and its strings, spelled out |
| MessageCodec.EscapeForms | internal/pkg/processor/common.go:422 | How every character is written inside a string, spelled out (section 7 of RFC 8259, and the characters escaped for HTML and JavaScript) |
| MessageCodec.LooseMessage | internal/pkg/processor/main.go:131-132 | A message with white space, keys in the other order and in other cases and an unknown key is read as the same message |
| MessageCodec.OneMember | internal/pkg/processor/main.go:131-132 | Which single values a message accepts for its number, for its strings and for an unknown key, and what they store |
| MessageCodec.NestedExactly | internal/pkg/processor/main.go:131-132 | Lists under an unknown key are accepted up to a nesting of 9999 and refused beyond |
| JsonTokens.EscapesRead | internal/pkg/processor/main.go:131-132 | The short escapes of a string and an unknown one, spelled out |
| JsonTokens.SurrogatesRead | internal/pkg/processor/main.go:131-132 | An escaped pair of surrogates is one character, a lone one the replacement character |
| JsonTokens.IntegerForms | internal/pkg/processor/main.go:131-132 | Which words are integers and their values; leading zeros, plus signs and lone signs are refused |
| MessageStream.CleanIsWellFramed | internal/pkg/processor/common.go:418-427 | The text of a message without a closing brace in its strings has its only closing brace at the end |
| MessageStream.OpensOnce | internal/pkg/processor/main.go:131-133 | In a text the decoder accepts, the first three bytes of a message occur at the start and nowhere else |
| InsideOut.LexMarks | internal/pkg/processor/main.go:131-133 | From inside a string of the writer the decoder sees the characters of the strings as its own signs and each border between two strings as a string of one comma, and anything escaped as an error |
| InsideOut.BehindDelivers | internal/pkg/processor/main.go:110-137 | From the part of a message behind a closing brace in a string come empty messages with number 0 only, as many as that part has objects in the wrong place |
| InsideOut.StraysExactly | internal/pkg/processor/main.go:110-137 | A message lets an empty one loose if and only if behind a closing brace of the strings the next brace is an opening one, and what stands between it and the next closing one is an object when borders are read as strings |
| InsideOut.StraysOfOne | internal/pkg/processor/main.go:110-137 | A message of one string does so if and only if only spaces stand between those two braces |
| MessageStream.ExactDelivery | internal/pkg/processor/main.go:217-247 | From any stream of messages those without a closing brace in a string are delivered as they are, in order; each other one gives exactly its empty messages with number 0 in its place, and no message touches its neighbours |
| MessageStream.AllArriveExactly | internal/pkg/processor/main.go:217-247 | All messages of a stream are delivered if and only if no string of any of them holds a closing brace |
| MessageStream.NothingInvented | internal/pkg/processor/main.go:217-247 | Whatever is delivered from a stream was sent, or is the empty message with number 0 |
| MessageStream.InjectsExactly | internal/pkg/processor/main.go:131-144 | A message makes the reader hand on something that was not sent if and only if its strings have such an object in the wrong place |
| MessageStream.StrayExample | internal/pkg/processor/main.go:131-144 | The message with number 4 and the one string `}{}` is delivered as an empty message with number 0 |
| MessageStream.SpreadStray | internal/pkg/processor/main.go:131-144 | The two strings `}{` and `:1}` let exactly one loose together, with their border as the key |
| MessageStream.ExactResynchronisation | internal/pkg/processor/main.go:120-129 | Garbage in front of a stream costs the first message (or the first piece of one with a closing brace) if and only if an opening brace is left behind its last closing one, and never another message |
| Contacts.EscapeRoundTrip | internal/pkg/processor/handlers.go:147-160 | Percent-decoding undoes percent-encoding for every byte string (section 2.1 of RFC 3986) |
| Contacts.EscapeForms | internal/pkg/processor/handlers.go:157-160 | Which bytes stand for themselves in a path segment, and the percent form of all others, spelled out |
| Contacts.UnescapeFails | internal/pkg/processor/handlers.go:147-150 | Percent-decoding fails if and only if some percent sign is not followed by two hexadecimal digits |
| Contacts.ContactsArrive | internal/pkg/processor/handlers.go:157-160 | The message with number 29 and the encoded contacts is delivered among any other messages, whatever the contacts contain and whatever becomes of the others, and unpacks to them |
| Dispatch.NegativeEndsProcess | internal/pkg/processor/main.go:41-54 | In every run the process ends if and only if some panel sent a negative number, which passes the length test; after one from the server no reader of the server connection ever exists again, because the recovery leaves the loop that connects to it |
| Dispatch.DispatchedExactly | internal/pkg/processor/main.go:141-157 | In every run the messages dispatched are those whose number has a handler in the table of the connection they came from, and each waits for a token at once; other numbers that are not negative change nothing |
| Dispatch.CanFinish | internal/pkg/processor/main.go:144-149 | From every reachable live state with fewer than six tokens out the run can go on until the message of a waiting reader is handled to the end |
| Dispatch.CanGiveUp | internal/pkg/processor/main.go:20-31 | A waiting reader can take a token if and only if fewer than six are out, and can always give up and drop its message |
| Dispatch.NobodyStuck | internal/pkg/processor/main.go:141-149 | In every reachable live state every reader and every handler can take its next step |
| Dispatch.StepKeeps | internal/pkg/processor/main.go:141-149 | Every step of a reader or handler keeps tokens equal to holders and each message in one place |
| Dispatch.TokensMatchHolders | internal/pkg/processor/main.go:20-39 | In every reachable state the channel holds one token per reader about to start a handler and per running handler, six at most |
| Dispatch.BackNeverBlocks | internal/pkg/processor/main.go:37-39 | A handler that has finished can always return its token at once |
| Dispatch.ExactlyOnePlace | internal/pkg/processor/main.go:144-149 | A message that was dispatched is in exactly one place: with one reader, in its handler, dropped or finished |
| Dispatch.QuietConservation | internal/pkg/processor/main.go:252-257 | When no reader and no handler holds a message, dropped and finished messages add up to all dispatched ones and no token is out |
| HideShow.StepKeeps | internal/pkg/processor/main.go:368-386 | Every step keeps the counter equal to the connections between increment and decrement, and owes every panel a show message while the counter is 0 and the panel hides |
| HideShow.CountIsConnected | internal/pkg/processor/main.go:368-386 | The counter is that number in every reachable state, so never negative |
| HideShow.ShownInTheEnd | internal/pkg/processor/main.go:368-386 | When all connections have gone the counter is 0 and the last message sent to every panel was to show |
| HideShow.MaskedUnlessOverlapping | internal/pkg/processor/main.go:368-386 | If no connection is counted while a show message is still to be sent to some panel, no panel is told to show as long as a connection that told it to hide is there, in every run |
| HideShow.OverlappingUnmasks | internal/pkg/processor/main.go:378-386 | From every reachable state with a show message still to be sent to a panel the run can go on so that a new connection leaves that panel showing |
| HideShow.LateMessage | internal/pkg/processor/main.go:378-386 | A run of two connections in which the first one's show message comes last, so that the panel shows during the second |
| HideShow.NobodyStuck | internal/pkg/processor/main.go:368-386 | Every connection that is not gone can take its next step towards its end |
| Sessions.StepKeeps | internal/pkg/processor/main.go:308-519 | Every step of any thread keeps the invariants of slot, pointers, connections and relayed bytes |
| Sessions.Rendezvous | internal/pkg/processor/main.go:312-331 | The slot is empty or holds both ends of one session; every end is served by one worker, so an offered pair is taken once; a worker waits for the pointer its partner fills |
| Sessions.SessionStarts | internal/pkg/processor/main.go:399-428 | A visit in modes 1 to 4 starts one thread for each end: one that can dial it, the near end in modes 1 and 2 and the far one in 1 and 3, or else one that can offer it with the other end |
| Sessions.ConnectedBy | internal/pkg/processor/main.go:407-433 | In every run the near end of a session gets its connection by dialling in modes 1 and 2 and from a local viewer in 3 and 4, the far end by dialling in 1 and 3 and from a viewer in 2 and 4, and in another mode never |
| Sessions.GreetedWith | internal/pkg/processor/main.go:480-484 | In every run the near end in modes 1 and 2 is greeted with exactly the code of its session and a line break, unless the connection refused, and every other end with nothing |
| Sessions.ViewerServed | internal/pkg/processor/main.go:312-331 | A viewer that connects while a pair is offered can take it, becomes the offered end and leaves the slot empty |
| Sessions.NobodyStuck | internal/pkg/processor/main.go:308-366 | In every reachable state every thread can take its next step; it waits only where it may give up |
| Sessions.GivesUp | internal/pkg/processor/main.go:319-343 | Who gives up closes its connection and is done |
| Sessions.CanRelay | internal/pkg/processor/main.go:505-510 | From every reachable state data at one end of a complete session can be passed on to the other end, whole and behind what it has, as long as it accepts anything |
| Sessions.EndsExactly | internal/pkg/processor/main.go:511-516 | A round ends the relay if and only if nothing was read, nothing was written or both failed, and then closes both connections, otherwise neither |
| Sessions.OwnCodeOnly | internal/pkg/processor/main.go:480-516 | In every reachable state what a connection accepted as a greeting is the start of the code of its own session and a line break, nothing without a code, and a relay that is over has closed its connection |
| Sessions.CodeFirstExactly | internal/pkg/processor/main.go:480-516 | A greeted connection has accepted relayed bytes, the greeting and more relayed bytes in this order, and the code comes first if and only if no relay wrote to the connection before it was greeted, in every run |
| Sessions.DataBeforeCode | internal/pkg/processor/main.go:480-516 | A run in which the other end is read and passed on between dialling and greeting |
| Sessions.NoCrossTalk | internal/pkg/processor/main.go:399-519 | In every reachable state what relays wrote to an end is a prefix of what was read from the other end of the same session, and nothing without another end |
| Sessions.AllArrives | internal/pkg/processor/main.go:352-362 | Between two rounds of a relay everything read has been written, unless the receiver made a short write |
| Sessions.StrangersStaySilent | internal/pkg/processor/main.go:308-323 | Nothing is read from or relayed to a connection that serves no end of a session |
| Sessions.PassedOnByWrite | internal/pkg/processor/main.go:508-510 | A write of any length keeps the receiver's bytes a prefix, and equal to what was read if it was whole |
| Relay.Conn.Read | internal/pkg/processor/main.go:508 | A read takes the front of what the peer sends, at most a buffer full, and leaves the rest |
| Relay.Run | internal/pkg/processor/main.go:505-515 | The relay loop with its reused buffer delivers exactly the payload up to the first empty read, or as much as the receiver accepts, for every buffer size and chunking, and closes both ends |
| Agents.Table.SortAgents | internal/pkg/processor/agents.go:24-35 | Terminates with a permutation in which unreachable agents keep their places and reachable ones ascend over the others |
| Agents.Table.Remove | internal/pkg/processor/handlers.go:269-275 | Terminates although the index starts over; all other agents stay, none with the address from index 1 up, and one at index 0 exactly in the stuck case |
| Agents.RemovedExactly | internal/pkg/processor/handlers.go:269-275 | The address stays in the table if and only if both the first and the last of two or more entries have it |
| Agents.Table.UpdateMetrics | internal/pkg/processor/agents.go:37-42 | Every agent gets a new metric, order and addresses stay |
| Agents.Table.Refresh | internal/pkg/processor/agents.go:73-74 | A refresh is new metrics followed by the sort |
| Agents.Table.ProcessServers | internal/pkg/processor/handlers.go:255-296 | After true and an address the table has one more agent of that address, after false and an address with distinct entries one less, in ascending order; after any other list it is that list, all unreachable |
| Agents.Table.ChooseRoute | internal/pkg/processor/handlers.go:340-344 | An address is carried if and only if the first entry is reachable; in a sorted table it is that of an agent with the least metric of all reachable ones |
| Agents.StepTracksLive | internal/pkg/processor/handlers.go:255-296 | A step that announces no listed agent keeps the addresses distinct and equal to the abstract set of live agents |
| Agents.RunTracksLive | internal/pkg/processor/handlers.go:255-296 | The same after every run of such steps from the empty table |
| Agents.RouteIsLeast | internal/pkg/processor/handlers.go:340-341 | Whenever a request carries an address, that agent's metric is the least of all reachable agents, in every run |
| Agents.RouteAfterRefresh | internal/pkg/processor/handlers.go:340-344 | After a refresh a request carries an address if and only if the agent that was first answered its ping; it is then the address of a fastest one |
| Update.Folder.Rename | internal/pkg/processor/common.go:307-316 | A rename that works moves the content over whatever was at the target; one that fails changes nothing |
| Update.Folder.Download | internal/pkg/processor/common.go:273-304 | The part before the first rename, with the panic on a wrong status |
| Update.Folder.UpdateMe | internal/pkg/processor/common.go:270-356 | The whole transaction for every pattern of failing operations |
| Update.Survives | internal/pkg/processor/common.go:306-351 | Whatever fails, each of the two executables is still at its own or at its old path |
| Update.Restores | internal/pkg/processor/common.go:313-340 | After a failure up to and including the extraction both executables are exactly as before if the rollback renames work |
| Update.ReloadingHasBackup | internal/pkg/processor/common.go:342-355 | A restart into the new version has the old program as a backup, and at the panel's path the new panel with the old one kept, or the old one |
| Update.OthersUntouched | internal/pkg/processor/common.go:270-356 | Files that take no part are unchanged |
| Update.ReloadsExactly | internal/pkg/processor/common.go:270-356 | An update ends in a restart if and only if every step up to the extraction works and the panel is renamed to its new or back to its old executable, and the program's path then holds what was extracted; it panics if and only if the status is wrong |
| Update.BackupsRemoved | internal/pkg/processor/common.go:273-279 | Without a good answer an update does nothing but remove the two backups of an earlier one |
| Update.DownloadLeft | internal/pkg/processor/common.go:288-304 | What a download that stops half-way leaves behind |
| Update.SecondUpdate | internal/pkg/processor/common.go:276-351 | After any first update the original program survives a second one if and only if the first left it in its place, or the second neither removes the backup nor renames another program over it, or delivers the original again |
| Update.LostInTwo | internal/pkg/processor/common.go:276-351 | A first update that extracts a new program and fails at the last renames, and a second one without an answer, lose the original |
| Update.SecondUpdateSafe | internal/pkg/processor/common.go:276-351 | If the first update left or put the program back in its place, it survives the second |

## Left out

- MessageStream.ExactDelivery: the decoder follows `encoding/json` on texts whose only closing brace is their last byte, which is all the reader hands on; other texts, with an object inside, it refuses. In a repeated list, null stands for an empty string and never for the entry of an earlier list. Strings are valid UTF-8 when they are written, and the number has 64 bits.
- Sessions.Rendezvous: the two assignments of `connectServer` are one step and the viewer's taking and clearing of the pair is one step; pairs can mix if they are split.
- Sessions.NoCrossTalk: after a short write a connection accepts nothing more, which a write deadline alone does not promise.
- HideShow.ShownInTheEnd: a message that is sent is taken for received, while a write gives up after a second (internal/pkg/processor/common.go:424-429) and its result is ignored, so a panel that misses it keeps hiding; the set of panels is fixed, and the broadcasts of the main loop around a reconnect (internal/pkg/processor/main.go:54 and 106) are not part of the run.
- PasswordStore.ShownIsChecked: handlers are atomic, the server assigns one Pid, the options file always holds the stored password in memory, and passwords are those the codec carries.
- Agents.RunTracksLive: a handler and a refresh round are one step each; a request in the middle of a refresh can see a table that is not sorted yet.
- PasswordCodec.RandomString: the generator redraws until two draws differ, which need not end; only the accepted draws are modelled. Digits instead of letters (`RandomNumber`) are switched off by a constant.
- Update.Survives: the program must not be named like one of the files the update moves, and the extractor must not write to the panel's executable or to the two backups.
- Dispatch.NegativeEndsProcess: a panic inside a handler, which ends the process as well, is not an event of the runs.
- Relay.Run: one direction alone, with a peer whose bytes are fixed beforehand; both directions together are in Sessions.
- Sockets, TLS, proxies, pings, timeouts in seconds, logging, the web server, VNC processes, zip extraction and process control: external or without unbounded properties; waits give up at any time.
- Profiles, contacts as trees, notifications and the other handlers: they forward fields.
