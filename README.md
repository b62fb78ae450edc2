# converse: signed conversations over an upspin store

converse lets users hold conversations as signed text messages kept in
their own upspin directories. There is no central server.

- **Message names.** Each message is a file named `msg<N>-<user>.<ext>`.
  Its number is one more than its parent's number, and the first message
  of a conversation has number 1.
- **Envelope.** A message is stored as an envelope with three parts:
  - a header (author, time, parent and, in message.go, title), followed
    by an `END HEADER` marker;
  - the raw content;
  - a `SIGNATURE` marker, followed by the two integers of an ECDSA
    signature over the header and content.
- **Conversations.** A conversation is the list of its messages, sorted
  with the comparator that `conversation.go` writes. That comparator orders
  them by number and then by time only when no later-numbered message
  carries an earlier time; otherwise it is no order, and the messages are
  only rearranged. Its participants come from the
  conversation's `Access` file, or from the messages' authors when that
  file cannot be read.
- **Replicas.** One user's tree is copied into another user's area without
  overwriting anything that is already there. `Access` files are never
  copied.

The two files define the same identifiers from two snapshots of the
program, and each becomes its own module:

- `message.go` is the newer one: `.txt` names, a four-field header, and a
  hexadecimal footer with one integer per line.
- `main.go` is the older one: `.md` names, a three-field header, and a
  decimal footer whose two integers are joined by `-`.

Modules:

- `Results`: the `Option` and `Result` wrappers. A Go panic or returned
  error becomes `None` or `Err`.
- `Text`: the Go string operations the program uses, namely
  `strings.Index`, `LastIndex`, `Split` and `TrimSpace`.
- `Numerals`: integer text in bases 10 and 16, standing for `strconv.Atoi`,
  `big.Int.SetString` and `fmt`'s `%v`/`%x`.
- `Records`: the header encoding, a line-per-field text with escaping. It
  stands in for JSON, and its round trip is proved.
- `Upspin`:
  - A path is a list of components.
  - `path.Join` and `path.Dir`/`path.Base` work on those lists.
  - `Client` is an in-memory store: a map from file paths to contents, a
    set of directories, and a fixed set of paths the caller may not access.
- `Sorting`: `sort.Slice` modelled as an in-place insertion sort on an
  array. The comparator may stop the program.
- `Messages`, `MainCmd`, `Conversations` and `Util`: `message.go`,
  `main.go`, `conversation.go` and `util.go` respectively.

Panics are modelled as `None` or as an `Err` value. Examples of the second:
- `Messages.Sections` gives `OutOfRange` where the Go slice expression would panic.
- `MainCmd.ParseMsgNum` gives `SliceOutOfRange` for the panic in `fname[3:i]`.
- `Conversations.SortMessages` gives `Unnamed` when its comparator would panic.

Stopping the program in `check` is modelled as a `false` result.

When the `Put` of the `Access` file fails, `conversation.go:142-147`
returns before appending the participant.
`Conversations.Conversation.AddParticipant` does the same: it records the
participant only after a successful write.

## Model

| member | source | states |
|---|---|---|
| Messages.Number | message.go:72-87 | A name without a `.` or without a `-` has no number (the panic); a number that is read is never negative |
| Messages.User | message.go:67-70 | A name without a `.` has no user; a user that is read is no longer than the name |
| Messages.NextName | message.go:60-65 | An empty parent gives the name numbered 1; otherwise there is a next name exactly when the parent's number can be read |
| Messages.NumberOfNewName | message.go:50-87 | For every k >= 0 and every user, even one holding `.` or `-`, the number read back from the generated name is k |
| Messages.UserOfNewName | message.go:50-70 | The user read back from a generated name is the user it was made with, whatever characters it holds |
| Messages.NegativeNumberUnreadable | message.go:50-87 | A name made from a negative number cannot be read back, because its sign sits where the number is cut |
| Messages.ParseMsgName | message.go:54-58 | ParseMsgName accepts a name exactly when its number can be read, and then returns it unchanged |
| Messages.ParseNewMsgName | message.go:50-58 | Every name generated from a non-negative number is accepted by ParseMsgName |
| Messages.NextNameReadable | message.go:60-65 | The next name reads back as the writer's, and its number is 1 for an empty parent or one past the parent's number |
| Messages.DecodeEncodeHeader | message.go:212-219 | The header text written before the marker decodes back to the same author, time, parent and title |
| Messages.Sections | message.go:116-129 | A missing header marker or signature marker is an error; otherwise the split succeeds exactly when the first header marker ends at or before the last signature marker, and the input is header + marker + content + signature marker + footer |
| Messages.ParseMessage | message.go:109-159 | Section errors are passed through; a parsed envelope's content is exactly the text between the first header marker and the last signature marker, and its header and signature are what their parsers read |
| Messages.ParseFooter | message.go:139-155 | A footer that does not trim to exactly two lines is malformed; a line that is not a base-16 integer is an invalid signature |
| Messages.FooterRoundTrip | message.go:229-231 | The footer written with `%x` on two lines reads back as the same pair of signature integers |
| Messages.RoundTrip | message.go:212-238 | Every envelope, whatever its content (even content holding either marker) and whatever the signs of its integers, parses back to itself |
| Messages.Message.constructor | message.go:195-197 | NewMessage gives an unsigned message with empty content, stamped with the given time |
| Messages.Message.FromEnvelope | message.go:131-157 | A parsed message carries the envelope's header fields, content and signature |
| Messages.Message.Name | message.go:199 | A message's name is its parent's next name for its author, with the number and author properties of NextName |
| Messages.Message.PayloadNoSig | message.go:212-228 | The signed text ends in the content, and its first header marker comes right before the content |
| Messages.Message.Payload | message.go:233-238 | An unsigned message has no payload; a signed message's payload parses back to its header, content and signature |
| Messages.Message.Sign | message.go:240-257 | A signed message is not signed again and an unreadable body changes nothing; otherwise the content is the body, the signature is the signer's over the signed text, and the returned text is the Payload and parses back to the message |
| MainCmd.Number | main.go:70-77 | A name without a `.` has no number |
| MainCmd.NextName | main.go:58-63 | An empty parent gives the name numbered 1; otherwise there is a next name exactly when this snapshot's Number reads the parent |
| MainCmd.NumberOfNewNameFails | main.go:48-77 | No name this snapshot writes can be read by its own Number, for any number and any user |
| MainCmd.ParseMsgName | main.go:52-56 | ParseMsgName accepts a name exactly when this snapshot's Number reads it, and then returns it unchanged |
| MainCmd.ParseMsgNameOfNewNameFails | main.go:48-56 | ParseMsgName rejects every name this snapshot generates |
| MainCmd.NextNameOfNewNameFails | main.go:58-63 | No generated parent has a next name, so the second message of a conversation panics |
| MainCmd.UserOfNewName | main.go:48-68 | The user read back from a generated `.md` name is the user it was made with |
| MainCmd.NextNameFixed | main.go:58-63 | With the number read as message.go reads it, there is a next name exactly when that number can be read |
| MainCmd.FixedNumberOfNewName | main.go:48-50 | message.go's Number reads back the number of every `.md` name with k >= 0 |
| MainCmd.NextNameFixedReadable | main.go:58-63 | The corrected next name carries the writer and the parent's number plus one (1 for an empty parent) |
| MainCmd.ParseMsgNum | main.go:226-234 | parseMsgNum succeeds exactly when Number reads the name, and returns that number |
| MainCmd.ParseMsgNumOfNewNameFails | main.go:226-234 | parseMsgNum fails on every generated name |
| MainCmd.SortMsgs | main.go:236-244 | The sort completes exactly when there are fewer than two names or every name has a parseMsgNum; a stopped sort leaves the array as it was; a completed one is a permutation ordered by ascending number |
| MainCmd.SortMsgsFixed | main.go:236-244 | The same sort keyed by message.go's Number: a permutation ordered by ascending number whenever every name can be read |
| MainCmd.DecodeEncodeHeader | main.go:155-170 | The three-field header text decodes back to the same author, time and parent |
| MainCmd.ParseFooter | main.go:118-134 | A footer that does not split on `-` into exactly two pieces is malformed; a piece that is not a decimal integer is an invalid signature |
| MainCmd.ParseMessage | main.go:88-138 | Section errors are passed through; the content is the text between the first header marker and the last signature marker |
| MainCmd.FooterRoundTrip | main.go:171-173 | A footer of two non-negative decimal integers joined by `-` reads back as the same pair |
| MainCmd.NegativeFooterRejected | main.go:119-123 | A footer written for a negative integer has more than two `-` pieces and is rejected as malformed |
| MainCmd.EncodedSections | main.go:95-108 | An encoded envelope splits into its header text, its content and its footer |
| MainCmd.RoundTrip | main.go:155-180 | An envelope with non-negative signature integers parses back to itself |
| MainCmd.NegativeSignatureRejected | main.go:171-173 | An envelope with a negative signature integer is written but cannot be parsed back |
| MainCmd.Message.constructor | main.go:144-146 | NewMessage gives an unsigned message with empty content, stamped with the given time |
| MainCmd.Message.Name | main.go:148 | The name is the parent's next name for the author: the first message gets number 1 and its author; a reply has a name exactly when this snapshot's Number reads its parent, so a reply to any generated name has none (NextName panics) |
| MainCmd.NoNextNameAfterNewName | main.go:58-77 | NextName fails for every parent this snapshot generates, for every author and number |
| MainCmd.Message.PayloadNoSig | main.go:155-170 | The signed text ends in the content, with its first header marker right before it |
| MainCmd.Message.Payload | main.go:175-180 | An unsigned message has no payload; a signed one parses back exactly when both integers are non-negative, and is otherwise rejected as malformed |
| MainCmd.Message.Sign | main.go:182-199 | A signed message is not signed again and an unreadable body changes nothing; otherwise the content is the body, the signature is the signer's, and the result is the Payload |
| Sorting.InsertionSort | main.go:237 | Whatever the comparator, the array afterwards is a permutation of what it held; when the comparator is the key order on the elements' keys, it is also ordered by key |
| Sorting.SortOrAbort | main.go:236-244 | A comparator that stops on an unkeyed element stops the sort exactly when two or more elements are sorted and one has no key, and a stopped sort changes nothing; a completed sort is always a permutation in which every element has a key, and it is ordered by key when the comparator agrees with the key order |
| Upspin.Join | util.go:153-155 | path.Join of single components: the result has no empty component and holds exactly the non-empty elements |
| Upspin.JoinAppend | util.go:153-155 | Joining two lists of elements is joining each and concatenating |
| Upspin.Client.Glob | conversation.go:68 | Glob of a directory fails exactly when it is missing or cannot be accessed; otherwise it lists every entry directly inside it, once each, with its kind |
| Records.DecodeEncode | message.go:219 | The header encoding decodes back to the values it was written from |
| Conversations.ConvPathLayout | conversation.go:24-26 | For a named user and title, ConvPath is the user, `conversations` and the title, followed by the joined extra elements |
| Conversations.ConvPathEntry | conversation.go:24-26 | A named file of a conversation is a direct child of the conversation directory, with that name as its base |
| Conversations.NewNamesMatch | conversation.go:68 | Every generated message name matches the glob pattern `msg*-*.txt` the reader lists |
| Conversations.AsWrittenLessCases | conversation.go:82-86 | The comparator as written says "less" whenever the number is lower; for equal numbers, and also for higher numbers, it says "less" exactly when the second is earlier |
| Conversations.AsWrittenNotAsymmetric | conversation.go:85 | Keys (1, 10) and (2, 5) are each "less" than the other |
| Conversations.AsWrittenAgreesOnConsistentTimes | conversation.go:82-86 | When times never run against the numbering, the comparator as written is the order by number and then time |
| Conversations.LessIsStrictTotalOrder | conversation.go:82-86 | The intended order, by number and then time (`Sorting.KeyLt`), is irreflexive, asymmetric, transitive and total, and its reflexive closure is the order InOrder checks |
| Conversations.TimesFollowNumbersAgree | conversation.go:82-86 | When no message with a higher number has an earlier second, the comparator as written equals the intended order on the messages' keys |
| Conversations.ChainedNumbers | conversation.go:183-194 | In a list where each message's parent is the name of the one before it, the k-th message is named with number k |
| Conversations.ChainedNextParent | conversation.go:189-194 | In a chained list of k messages the last one has a name, numbered k, so the next Add never panics |
| Conversations.ChainedAppend | conversation.go:183-194 | Appending a message whose parent is the last message's name, as Add does, keeps the list chained |
| Conversations.GrantKeepsLines | conversation.go:127-140 | A grant appended to an existing Access file keeps every line of it and adds the one read grant line |
| Conversations.GrantNewFile | conversation.go:129-140 | A new Access file holds exactly the owner's wildcard line and the read grant line |
| Conversations.Granted | conversation.go:127-145 | The store after a grant holds the Access file and differs from the old store at most at that path |
| Conversations.Conversation.constructor | conversation.go:60-64 | A conversation starts with its title, no messages and no participants |
| Conversations.Conversation.NextParent | conversation.go:189-194 | The parent for the next message is "" for an empty conversation, else the last message's name |
| Conversations.Conversation.Add | conversation.go:183-187 | Exactly one new unsigned message is appended, with the given author, the conversation's title and the next parent, and it is returned; earlier messages and participants are unchanged; when the next parent cannot be computed (the panic) nothing changes |
| Conversations.Conversation.IsParticipant | conversation.go:108-115 | The answer is true exactly when the user is among the participants |
| Conversations.Conversation.AddParticipant | conversation.go:117-149 | An untitled conversation is an error and an existing participant a no-op, both without a store write; otherwise the call succeeds exactly when the grant can be written, and then the Access file holds the grant and the user is appended once; on failure nothing changes |
| Conversations.Grant | conversation.go:124-145 | The grant succeeds exactly when an existing Access file can be read and the path can be written; the store then holds the granted text, and is unchanged otherwise |
| Conversations.MatchMsgFiles | conversation.go:68 | The kept entries are exactly the listed entries whose base name matches the message pattern |
| Conversations.MatchMsgFilesAppend | conversation.go:68 | The filter keeps the listing's order: filtering a concatenation concatenates the filtered parts |
| Conversations.MatchMsgFilesDistinct | conversation.go:68 | Filtering a listing whose names are distinct keeps them distinct |
| Conversations.MatchedEntries | conversation.go:67-69 | From a complete, duplicate-free listing of the conversation directory, the filter keeps, once each, exactly the entries that are message files by name |
| Conversations.ReadMessages | conversation.go:73-80 | On success every entry was readable and parsed, and the k-th message is the k-th entry's parse; one unreadable or unparsable entry fails the whole read |
| Conversations.SortMessages | conversation.go:82-86 | sort.Slice with the comparator as written: it fails exactly when two or more messages are sorted and one has no name; otherwise the result is always a permutation, and it is ordered by number and then second when the times follow the numbers |
| Conversations.SortMessagesFixed | conversation.go:82-86 | The same sort with the order by number and then second: it fails exactly when SortMessages does, and otherwise the result is a permutation that is always ordered |
| Conversations.ReadDir | conversation.go:66-80 | A directory that is missing or cannot be accessed fails the glob; on success every message file in it was readable, every message was parsed from one of them, every message file gave a message with its header, content and signature, and there are as many messages as message files |
| Conversations.ReadDirFacts | conversation.go:66-80 | The messages read in order from the filtered listing are sound (each from a message file), complete (each message file gave one) and as many as the message files |
| Conversations.ReadSorted | conversation.go:66-86 | ReadDir's results carry through the sort: sound, complete and counted, and ordered by number and time when the times follow the numbers |
| Upspin.NamesCount | conversation.go:67-69 | A duplicate-free list of entries naming exactly a set of paths has as many entries as the set has paths |
| Conversations.WithUsersMembers | conversation.go:90-96 | Adding users one by one as AddParticipant does keeps the old participants in front, holds exactly the old participants and the added users, and never adds a duplicate |
| Conversations.DistinctAuthors | conversation.go:90-96 | From no participants, adding every author gives each distinct author exactly once: a user is a participant exactly when some message has that author |
| Conversations.GrantedAllWritten | conversation.go:90-96 | The grants of the fallback write the Access file and no other file |
| Conversations.GrantedAllLines | conversation.go:127-140 | After the fallback's grants the Access file holds its old lines, or the owner's line when there was none, followed by one read grant line per added user, in order |
| Conversations.AddAuthor | conversation.go:91-96 | One round of the fallback: an untitled conversation fails; when the participants and the store are those of adding some authors in turn, a successful round leaves those of adding one more (appended and granted once, or nothing when already present); only the Access file is written and the old participants stay in front |
| Conversations.AddAuthors | conversation.go:90-96 | An untitled conversation with messages fails as Untitled; on success the participants are the old ones followed by each author not yet present, once, in message order (WithUsers); the store is the old one with one Access file grant per added user, in that order (GrantedAll), and nothing else written |
| Conversations.LoadParticipants | conversation.go:88-103 | With a readable Access file the participants are the users it grants read access, or the read fails with no write; otherwise, on success, the participants and the store are those AddAuthors gives: the old participants then each new author once, with one grant each |
| Conversations.Assemble | conversation.go:73-105 | The conversation has the requested title and the given messages; its participants are the Access file's readers, or else exactly the distinct authors of the messages in message order, without duplicates, with one grant per author written to the Access file |
| Conversations.ReadConversation | conversation.go:66-106 | The whole read fails on any bad message file; a result carries the title, and messages each parsed from a message file of the conversation, one with the parsed header for every such file and as many as those files, ordered by number and time when the times follow the numbers; it carries the participants of the Access file, or else exactly the distinct authors in message order, without duplicates, with one Access file grant written for each; the store changes at most at the Access file |
| Util.Join | util.go:153-155 | The joined path has no empty component |
| Util.JoinExtends | util.go:153-155 | Joining onto a clean path keeps it as the leading part of the result |
| Util.JoinJoin | util.go:153-155 | Joining in two steps is joining once |
| Util.MakeDirs | util.go:19-41 | An existing path is left alone and is a success; otherwise the call succeeds exactly when the path exists afterwards; only leading parts of the path are created, files are untouched, and a clean path whose leading parts are all free ends up with all of them as directories |
| Util.MakeNext | util.go:26-33 | One loop step extends the built path by the next non-empty component, creates only leading parts of the path, leaves files alone, and adds the next leading part to the directories when all are free |
| Util.RecursiveList | util.go:43-66 | A directory that is missing or cannot be accessed is an error, and a readable tree is listed; every listed entry is a file below the root, reached without passing through an Access entry; every such file is listed |
| Util.Copy | util.go:68-104 | An existing destination and an Access source are refused without any change; on success the destination is new and holds the source's bytes, and no other file changes; only parents of the destination are created; success is guaranteed when the source is readable and the destination's parent exists or can be made |
| Util.DestinationShape | util.go:118-123 | A file's destination is the destination user followed by the file's path below its own user |
| Util.SyncEntry | util.go:117-131 | One round never changes an existing file and writes only copies of listed source files to their destinations; on success the file's destination exists |
| Util.Synchronize | util.go:106-134 | A missing or forbidden source is an error with no change; existing files never change; every new file holds the bytes of a listed source file with that destination; on success every listed source file's destination exists |
| Util.SyncedCopy | util.go:117-131 | In a store of clean paths, a destination that was missing and now holds a file holds exactly the bytes of its own source |
| Util.AddFile | util.go:136-149 | The file is written exactly when the store lets it be put, and nothing else changes |
| Util.AccessPathShape | util.go:158 | The Access path is the joined directory followed by `Access`, and its parent is the directory when the directory is clean |
| Util.ReadAccess | util.go:157-164 | The call succeeds exactly when the Access file exists, may be read and parses, and returns the parse |

## Left out

- Signing and verification are not modelled:
  - `lookup`/`Lookup`, `Verify`, `factotum.Sign`/`Verify` and the SHA-256 in `contentHash` are cryptography with external keys.
  - `Sign` takes the signer as a function parameter from the signed text to an optional pair of integers, and the hash is folded into it.
- JSON `MarshalIndent`/`Unmarshal` is replaced by the `Records` line encoding:
  - time is an integer number of nanoseconds, so `time.Time` text formatting and time zones are not modelled;
  - the properties the envelope needs (an exact round trip and no blank line in the header text) are proved for that encoding.
- `ReadMessage`, `Open`, `Create`, `io.Copy` and `Close` are each modelled as a single `Get` or `Put`:
  - streaming, partial writes and errors from `Close` are not modelled;
  - an `io.Reader` body is an optional string, where None is a failing read.
- `Send`, `ListConversations` and `conversation.go`'s `AddFile` depend on the global configuration and only call into the store.
  - `util.go`'s `AddFile` is modelled instead.
- `access.Parse` and `Access.Users` are function parameters:
  - `Readers` in `Conversations`, and the parser given to `Util.ReadAccess`;
  - the Access file grammar is not modelled.
- `client.New` and `upspin.Config`:
  - a client object is passed in;
  - the configured user name is the `owner` parameter.
- `LocalClient`, `LocalFile`, `RenderHtml`, `String`, markdown.go, `main`, `list`, `printUsage` and `check`:
  - these are OS wrappers, rendering and command-line handling;
  - stopping the program in `check` is modelled only inside `SortMsgs`.
- Paths are lists of components:
  - the text of `path.Join`/`path.Clean` (`..`, `.`, repeated or trailing `/`) is not modelled, only the dropping of empty elements;
  - `upath.Parse` user validation is reduced to a destination with no user component, which gives `BadPath`.
- Go `int` overflow in `Number()+1` and `strconv.Atoi`'s range limit are not modelled; integers are unbounded.
- `Util.Synchronize`:
  - the claim that a copied destination holds its own source's bytes is proved separately in `Util.SyncedCopy`;
  - that proof covers only stores whose paths are clean, where distinct sources have distinct destinations;
  - with unclean paths two sources could share one destination, and only "some listed source" is stated.
- `Util.RecursiveList`: success is promised only when every directory below the root is readable. Otherwise the result may be either, and every result is still sound.
- `Util.Copy` and `Util.MakeDirs`: directories are made only along the destination's path. Their success guarantees assume the destination's parent and every leading part of it can be made. Store failures outside those conditions may go either way.
- `MainCmd.RoundTrip` requires non-negative signature integers. `MainCmd.NegativeSignatureRejected` states what happens otherwise. ECDSA produces positive integers, so this case is not listed as a finding.
- `sort.Slice` is modelled by an insertion sort, which is what Go runs on short slices. Since Go 1.19, that covers slices of 12 or fewer elements. Older releases run a gap-6 shell pass first on 7 to 12 elements. Longer slices go through a quicksort, which can arrange them differently when the comparator is not an order. The results stated here hold for either algorithm: the result is a permutation, and it is ordered when the comparator agrees with the key order.
- Conversations.ReadConversation: for each message file it states the message's header, not its content and signature. `Conversations.ReadSorted` states all three for the same messages before participants are loaded.
- Concurrency between replicas and the atomicity of check-then-copy are not modelled; the store is one sequential map.

## Findings

| source | as written | input that shows it | evidently intended | confidence | as-written member | corrected member |
|---|---|---|---|---|---|---|
| main.go:70-77 | `Number` reads the text from index 3 up to the first `.`, which in every generated name also holds the `-` and the user | `NewMsgName("alice", 1)` is `msg1-alice.md`; `Atoi("1-alice")` fails and `Number` panics, so `NextName` of any real parent panics | read up to the earlier of the first `-` and the first `.`, as message.go:73-77 does | not executed | MainCmd.NumberOfNewNameFails | MainCmd.NextNameFixedReadable |
| main.go:226-244 | `parseMsgNum` slices the same way, so the `sortMsgs` comparator calls `check` on an error | `["msg1-a.md", "msg2-b.md"]`: `parseMsgNum("msg1-a.md")` fails and the program exits | order the names by their number | not executed | MainCmd.ParseMsgNumOfNewNameFails | MainCmd.SortMsgsFixed |
| conversation.go:85 | `(ni != nj && ni < nj) \|\| (ti < tj)` says "less" whenever the second is earlier, whatever the numbers | keys (number 1, second 10) and (number 2, second 5): each is "less" than the other | the order by number and then by second, a strict total order | not executed | Conversations.AsWrittenNotAsymmetric | Conversations.SortMessagesFixed |

`Conversations.ReadConversation` keeps the comparator as written, so that it
reads the directory as `conversation.go` does. `Conversations.SortMessagesFixed`
is the corrected sort, and `MainCmd.SortMsgsFixed` and `MainCmd.NextNameFixed`
are the corrected forms of main.go's reading of the number.
