# Tonika core, modelled in Dafny

Tonika is a friend-to-friend overlay network. Each peer holds a table of
friends and keeps authenticated, multiplexed connections to them (the
dialer). Over these connections it forwards HTTP requests hop by hop (the
vault). Identifiers are 64-bit integers written in a checksummed base-30
encoding (Eyeball-64).

This project models the sequential rules of that core and proves
properties about them:
- the codecs;
- the small buffers and tables;
- the connection state machine and its logical channels;
- the authentication handshake, with the cryptography left abstract;
- the per-friend telephones and the dialer's subject registry;
- the friends table and the application core that edits it and keeps the
  dialer in step;
- the vault's hop-count header protocol, its forwarding rules and the
  mapping of request paths to files.

Conventions used throughout:

- Go's `uint64`, `int64` and 32-bit `int` are bounded integer subset types.
  Wrap-around and two's-complement conversions are written out (module
  `Base`).
- A Go `panic` is modelled as a `requires` clause: the caller must not
  reach it.
- An `(value, error)` return is a `Result` or a pair, with the same error
  values the code returns.
- Objects whose fields the code updates in place are classes. Their methods
  state the new state in `ensures` clauses. Pure helpers are functions,
  with lemmas about them.
- The cryptography, the hash functions, base64 and `big.Int` are
  function-typed parameters. Randomness is a parameter. The network is a
  value of inputs and outputs.

## Model

| member | source | states |
|---|---|---|
| GoStrconv.AtoiItoa | src/pkg/vault/httputil.go:93-114 | the `strconv.Itoa` rendering of any 32-bit int reads back through `strconv.Atoi` as the same int |
| GoStrconv.AtoiAccepts | src/pkg/vault/httputil.go:114 | Atoi succeeds only on an optionally signed, non-empty digit string, and only with a value inside the 32-bit range |
| GoStrconv.ZeroPadValue | src/pkg/util/filewriter/writer.go:80 | the `%05d` rendering of a non-negative number reads back as that number |
| Eye64.U64ToEye | src/pkg/util/eye64/eye64.go:92-111 | the buffer filled from the right is the rendering of u: "aa" for 0, otherwise the base-30 digits, most significant first, then the checksum character |
| Eye64.EyeToU64 | src/pkg/util/eye64/eye64.go:48-90 | the loop returns what the left-to-right scan specification returns, including the error value returned beside EINVAL (0) and ERANGE (2^64-1) |
| Eye64.RoundTrip | src/pkg/util/eye64/eye64_test.go:48-55 | decoding the rendering of any 64-bit value returns that value with no error |
| Eye64.CaseInsensitive | src/pkg/util/eye64/eye64.go:52 | two strings that agree up to letter case decode identically |
| Eye64.UpperRoundTrip | src/pkg/util/eye64/eye64.go:21-24 | an upper-cased rendering decodes to the same value |
| Eye64.ErrorValues | src/pkg/util/eye64/eye64.go:48-87 | an overflow returns 2^64-1 with ERANGE; any other failure returns 0 with EINVAL; inputs shorter than 2 characters are rejected |
| Eye64.CleanDecode | src/pkg/util/eye64/eye64.go:58-89 | a clean decode has read only alphabet characters, and its last character is the digit sum of the others modulo 30 |
| Eye64.SubstitutionDetected | src/pkg/util/eye64/eye64.go:24 | changing any one character of a valid string into a different letter (ignoring case) makes decoding fail |
| Eye64.DigitsValue | src/pkg/util/eye64/eye64.go:101-107 | the digits the loop emits are the base-30 representation of u |
| Eye64.DigitsLength64 | src/pkg/util/eye64/eye64.go:99-104 | a 64-bit value has at most 14 base-30 digits, so the 32-byte buffer never underflows |
| Varint.EncodeVarint | src/pkg/util/varint/varint.go:28-38 | the bytes the loop fills are the base-128 encoding of x, lowest 7-bit group first |
| Varint.DecodeVarint | src/pkg/util/varint/varint.go:46-60 | the loop returns the value of the groups up to the first byte with a clear high bit, cut to 64 bits, and the number of bytes read; (0, 0) when no byte terminates |
| Varint.DecodeEncoding | src/pkg/util/varint/varint.go:22-60 | decoding the encoding of any uint64 returns it and the encoding's length, whatever follows it |
| Varint.EncodingShape | src/pkg/util/varint/varint.go:31-37 | every encoded byte but the last has the high bit set, the last has it clear; x <= 127 encodes as the single byte x |
| Varint.EncodingLength | src/pkg/util/varint/varint.go:28-38 | a uint64 encodes in 1 to 10 bytes |
| Varint.EncodingGroups | src/pkg/util/varint/varint.go:32-33 | byte n carries bits 7n..7n+6 of x |
| Varint.Truncated | src/pkg/util/varint/varint.go:49-51 | a buffer that ends before a terminating byte decodes to (0, 0) |
| Varint.IgnoresRest | src/pkg/util/varint/varint.go:55-59 | decoding stops at the first terminating byte: replacing what follows does not change the result |
| GoBytes.Int64ToBytes | src/pkg/util/bytes/bytes.go:37-45 | exactly 8 bytes, the big-endian representation of uint64(s) |
| GoBytes.BigEndianByteAt | src/pkg/util/bytes/bytes.go:42-43 | byte i of the l-byte representation is (u >> 8(l-1-i)) & 0xff |
| GoBytes.BytesToInt64 | src/pkg/util/bytes/bytes.go:25-35 | an error for any length but 8; otherwise the int64 whose two's-complement big-endian bytes are b |
| GoBytes.Int64RoundTrip | src/pkg/util/bytes/bytes.go:25-45 | BytesToInt64(Int64ToBytes(s)) returns s, negative values included |
| GoBytes.Int64Onto | src/pkg/util/bytes/bytes.go:25-45 | every 8-byte string is the encoding of the int64 it decodes to |
| Rsa64.Int64ToBytes | src/pkg/util/rsa64/rsa64.go:34-42 | the 8 big-endian bytes of uint64(s) |
| Rsa64.BytesToInt64 | src/pkg/util/rsa64/rsa64.go:45-55 | an error unless 8 bytes long; otherwise the int64 they encode |
| Rsa64.Int32ToBytes | src/pkg/util/rsa64/rsa64.go:58-66 | the 4 big-endian bytes of uint32(s) |
| Rsa64.BytesToInt32 | src/pkg/util/rsa64/rsa64.go:69-79 | an error unless 4 bytes long; otherwise the int32 they encode |
| Rsa64.Int32RoundTrip | src/pkg/util/rsa64/rsa64_test.go:38-47 | the int32 codec round-trips, negative values included |
| Rsa64.WrongLength | src/pkg/util/rsa64/rsa64.go:48-50 | each byte decoder fails exactly on the wrong length |
| Rsa64.FirstComma | src/pkg/util/rsa64/rsa64.go:81-88 | the least index of ',' or -1 when there is none |
| Rsa64.AppendCRC | src/pkg/util/rsa64/rsa64.go:91-103 | writes alphaCRC[(sum of p[0..dlen)) mod 62] at p[dlen] and changes no other element |
| Rsa64.VerifyCRC | src/pkg/util/rsa64/rsa64.go:107-117 | accepts exactly the strings whose last byte is the check character of the others; false for "" |
| Rsa64.CrcValidIff | src/pkg/util/rsa64/rsa64.go:91-117 | verifyCRC accepts a string if and only if it is what appendCRC makes of its prefix |
| Rsa64.PubRoundTrip | src/pkg/util/rsa64/rsa64.go:120-160 | Base64ToPub(PubToBase64(k)) returns k, for any base64 codec that inverts itself and never emits ',' |
| Rsa64.PrivRoundTrip | src/pkg/util/rsa64/rsa64.go:163-239 | Base64ToPriv(PrivToBase64(k)) returns k under the same conditions |
| Rsa64.PubErrors | src/pkg/util/rsa64/rsa64.go:120-139 | "" or a CRC failure gives (nil, nil), not an error; a checked text without ',' is the "missing delimiter" error |
| Rsa64.PubText | src/pkg/util/rsa64/rsa64.go:242-268 | "" exactly for a nil key; the text of a key always carries a valid check character |
| Rsa64.PrivText | src/pkg/util/rsa64/rsa64.go:271-315 | "" exactly for a nil key; the text of a key always carries a valid check character |
| Rsa64.PubOf | src/pkg/util/rsa64/rsa64.go:120-160 | a key, or an error, comes only from a non-empty text whose check character verifies; every other text gives (nil, nil) |
| Rsa64.PrivOf | src/pkg/util/rsa64/rsa64.go:163-239 | a key, or an error, comes only from a non-empty text whose check character verifies; every other text gives (nil, nil) |
| FixFifo.FixFifo.Make | src/pkg/util/fixfifo/fixfifo.go:31-33 | a new FIFO has the given capacity, holds nothing, and every slot is nil |
| FixFifo.FixFifo.Len | src/pkg/util/fixfifo/fixfifo.go:39-41 | last - first is the number of queued elements and never exceeds the capacity |
| FixFifo.FixFifo.Full | src/pkg/util/fixfifo/fixfifo.go:43-45 | Full holds exactly when the queue holds capacity elements |
| FixFifo.FixFifo.Push | src/pkg/util/fixfifo/fixfifo.go:48-56 | on a full FIFO, false and no change; otherwise value joins the back of the queue in slot last mod capacity, and true |
| FixFifo.FixFifo.Pop | src/pkg/util/fixfifo/fixfifo.go:58-66 | on an empty FIFO, nil and no change; otherwise the oldest element, removed from the queue, with its slot set to nil |
| FixFifo.RingAt | src/pkg/util/fixfifo/fixfifo.go:52-62 | the element at queue position i sits in slot (first + i) mod capacity |
| FixFifo.RingPush | src/pkg/util/fixfifo/fixfifo.go:52-54 | writing the slot after the last element and advancing last appends to the queue and keeps every other slot's meaning |
| FixFifo.RingPop | src/pkg/util/fixfifo/fixfifo.go:62-65 | clearing the head slot and advancing first removes the oldest element and keeps every other slot's meaning |
| Backoff.Backoff.Reset | src/pkg/util/backoff/backoff.go:32-36 | Current becomes Lo, Attempt 0, and Lo is returned |
| Backoff.Backoff.Inc | src/pkg/util/backoff/backoff.go:38-45 | Attempt grows by one; Current becomes ceil(Current * Ratio) if that is at most Hi and stays otherwise; the new Current is returned |
| Backoff.Ceil | src/pkg/util/backoff/backoff.go:39 | the ceiling of x / d: the least multiple of d not below x, divided by d |
| Backoff.NextBounds | src/pkg/util/backoff/backoff.go:39-42 | a Current at most Hi stays at most Hi; with Ratio >= 1 it never decreases |
| Backoff.TwelfthInc | src/pkg/util/backoff/backoff_test.go:26-39 | from Lo = Current = 2 with Hi = 100 and Ratio 1.4, the twelfth Inc returns 79 |
| Replay.SourceRead | src/pkg/util/replay/replay.go:66 | one read of the underlying reader: at most k bytes, taken from the front of what it holds; its end error once it is empty |
| Replay.ReplayReader.NewReader | src/pkg/util/replay/replay.go:32-38 | a reader in play mode with empty memory of capacity l0 |
| Replay.ReplayReader.Rewind | src/pkg/util/replay/replay.go:47-52 | switches to replay mode; a second Rewind panics (a precondition here) |
| Replay.ReplayReader.Read | src/pkg/util/replay/replay.go:54-91 | play mode returns a stored error, EIO once the memory is full, else reads at most the capacity left and remembers it; replay mode serves memory first, then the stored error, then the underlying reader; memory always equals the bytes played minus those replayed |
| Replay.Example | src/pkg/util/replay/replay_test.go:26-44 | capacity 4 over "abcdefgh" with a 3-byte buffer: "abc", then after Rewind "abc", "def", "gh" |
| IoPipe.Pipe.Write | src/pkg/util/iopipe/iopipe.go:35-40 | queues p as one chunk and returns (len(p), nil) |
| IoPipe.Pipe.Read | src/pkg/util/iopipe/iopipe.go:42-58 | serves the partial chunk first, else the next queued chunk; at most the buffer's length; a drained chunk becomes nil; the bytes read, followed by those pending, are those pending before |
| IoPipe.FlattenSnoc | src/pkg/util/iopipe/iopipe.go:31-58 | the pending bytes are the queued chunks in write order |
| IoPipe.MakePipe | src/pkg/util/iopipe/iopipe.go:77-80 | each end writes into the pipe the other end reads, and both pipes start empty |
| IoPipe.PipeEnd.Close | src/pkg/util/iopipe/iopipe.go:72-75 | Close returns nil |
| IoPipe.Example | src/pkg/util/iopipe/iopipe.go:64-80 | a chunk written on one end is read whole on the other |
| SmallDist.SmallDist.Init | src/pkg/math/smalldist.go:29-31 | n buckets, all zero |
| SmallDist.SmallDist.Add | src/pkg/math/smalldist.go:35-41 | counts one in bucket i, or in the last bucket when i is past it, and changes no other bucket; the total grows by one and the length is unchanged |
| SmallDist.TotalBump | src/pkg/math/smalldist.go:35-41 | adding one to a bucket adds one to the total |
| SmallDist.SmallDist.Int64Array | src/pkg/math/smalldist.go:43-45 | the bucket array itself is returned, not a copy |
| Rewind.RewindBody.ReadAsWritten | src/pkg/http/rewind.go:22-31 | after Close, (-1, EOF); otherwise min(len p, len body) bytes from the start of body and the position is never advanced; (0, EOF) when nothing is copied |
| Rewind.RewindBody.Close | src/pkg/http/rewind.go:33-36 | sets the position to -1 and returns nil |
| Rewind.RewindBody.Rewind | src/pkg/http/rewind.go:38-41 | resets the position to 0 and returns nil |
| FileReader.CheckFormat | src/pkg/util/filewriter/reader.go:85-103 | holds exactly for names that start with the prefix, are at least 6 long, and end in '-' and five digits |
| FileReader.LooseFormat | src/pkg/util/filewriter/reader.go:85-103 | the '-' need not follow the prefix directly |
| FileReader.FilterAndSort | src/pkg/util/filewriter/reader.go:105-115 | the result is sorted and holds exactly the names in format, each as often as listed |
| FileReader.FilterAndSortLast | src/pkg/util/filewriter/reader.go:68-74 | the last name filterAndSort returns is the latest name, whatever the listing order |
| FileReader.LatestIsGreatest | src/pkg/util/filewriter/reader.go:68-75 | there is no latest name exactly when no listed name is in format; otherwise it is listed, in format and not less than any listed name in format |
| FileReader.FileReader.SeekToLatestFile | src/pkg/util/filewriter/reader.go:50-83 | a listing error is returned; no name in format gives EOF and no change; otherwise the latest file is opened, or on an open error file and decoder are cleared |
| FileReader.FileReader.Read | src/pkg/util/filewriter/reader.go:117-124 | EINVAL until a file is open, then the file's bytes |
| FileReader.FileReader.Decode | src/pkg/util/filewriter/reader.go:126-133 | EINVAL until a file is open, then the next value, or EOF |
| FileReader.RecoverLatestDecode | src/pkg/util/filewriter/reader.go:148-172 | the stat or listing error when one fails, an error when the latest file does not open, EOF when no name is in format or the latest file holds no value; otherwise success with the last value |
| FileReader.LatestDecode | src/pkg/util/filewriter/reader.go:137-146 | the one value of prefix-latest (EOF when it is empty) when that file opens; when it does not, every outcome of the recovery from the numbered files: the stat, listing or open error, EOF, or the last value |
| FileWriter.GenerateName | src/pkg/util/filewriter/writer.go:56-82 | prefix-00001 when no name is in format, otherwise prefix-%05d of the latest suffix + 1 |
| FileWriter.NextNameOverflow | src/pkg/util/filewriter/writer.go:74-81 | after log-99999 the name is log-100000, which is not in format, and it is generated again when log-100000 already exists |
| FileWriter.CheckedIsFresh | src/pkg/util/filewriter/writer.go:56-82 | the corrected name is always in format, and never an existing name when the names in format are strictly prefix-NNNNN |
| FileWriter.GenerateNameChecked | src/pkg/util/filewriter/writer.go:56-82 | the corrected generateName: as written, except ERANGE instead of a sixth digit |
| FileWriter.FileWriter.Recycle | src/pkg/util/filewriter/writer.go:84-100 | recycle with the corrected generateName: the open file is dropped and the count reset; then the next name is created empty and opened, or the error (ERANGE past prefix-99999) is returned with no file open |
| FileWriter.FileWriter.RecycleAsWritten | src/pkg/util/filewriter/writer.go:84-100 | recycle as written: the same, with generateName as written, so with prefix-99999 present it creates prefix-100000 and truncates it on every later recycle |
| FileWriter.FileWriter.Write | src/pkg/util/filewriter/writer.go:102-118 | a failed write returns (0, err) and counts nothing; otherwise p is appended and counted; past 100 MiB p stays appended to the old file and the corrected recycle follows, whose error is returned and whose new file (or none) is the open one; the count is always the open file's size |
| FileWriter.FileWriter.Close | src/pkg/util/filewriter/writer.go:126-133 | file and encoder are cleared and the close error is returned |
| FileWriter.MakeFileWriter | src/pkg/util/filewriter/writer.go:41-49 | with the corrected recycle: a writer exists exactly when the first recycle succeeds, and it then has the generated name open and empty; otherwise the listing, ERANGE or open error is returned |
| FileWriter.SelfDelimitedWriter.Write | src/pkg/util/filewriter/writer.go:198-208 | writes EncodeVarint(len(p)) and then p; a failure of the first write returns (0, err) |
| FileWriter.FrameRoundTrip | src/pkg/util/filewriter/writer.go:198-208 | a reader of the stream recovers len(p) from the varint, then p, then what follows |
| Rewind.RewindBody.Read | src/pkg/http/rewind.go:22-31 | the intended Read: min(len p, bytes left) bytes from the position on, which then advances; (0, EOF) at the end; (-1, EOF) after Close |
| Rewind.NeverEnds | src/pkg/http/rewind.go:26-29 | as written, two reads of a non-empty body return the same non-empty bytes and no error, so a read loop never ends |
| Rewind.ReadAll | src/pkg/http/rewind.go:22-41 | with the intended Read, a loop until EOF delivers the body exactly once and stops at its end |
| SmallDist.Bucket | src/pkg/math/smalldist.go:36-40 | the bucket is a valid index, and it is i itself whenever i is one |
| GoSort.SortStrings | src/pkg/util/filewriter/reader.go:114 | sort.SortStrings: the result is a permutation of the input |
| GoSort.SortSorted | src/pkg/util/filewriter/reader.go:114 | the result of sort.SortStrings is in ascending byte-wise order |
| GoSort.LessTransitive | src/pkg/util/filewriter/reader.go:114 | the byte-wise string order is transitive (with LessTotal, LessIrreflexive and LessAsymmetric, a strict total order) |
| GoSort.LastIsGreatest | src/pkg/util/filewriter/reader.go:68-74 | the last element of a sorted list is not less than any element of it |
| IdKey.Fold | src/pkg/sys/idkey.go:51-55 | after the loop, byte j of the first eight is h[j] ^ h[8+j] ^ h[16+j] ^ h[24+j] of the original hash, and bytes 8..31 are untouched |
| IdKey.IdForKey | src/pkg/sys/idkey.go:29-62 | the Id is the big-endian value of the folded SHA-256 hash of the key's rsa64 text; the hash must be 32 bytes (the panic at 46-49 is a precondition) |
| IdKey.VerifyKeyAndId | src/pkg/sys/idkey.go:65-67 | true exactly when the Id is the key's Id |
| IdKey.XorCancel | src/pkg/sys/idkey.go:51-55 | XOR with a fixed byte is one-to-one, in either argument |
| IdKey.IdOfHashSensitive | src/pkg/sys/idkey.go:51-61 | changing any one of the 32 hash bytes changes the Id |
| Sys.ParseId | src/pkg/sys/sys.go:138-142 | the error is EINVAL for input shorter than two characters; beside EINVAL the Id is 0, beside ERANGE it is 2^64-1 |
| Sys.ParseIdEye | src/pkg/sys/sys.go:138-146 | ParseId(id.Eye()) returns id and no error |
| Sys.IdEyeInjective | src/pkg/sys/sys.go:144-148 | two Ids have the same Eye name exactly when they are equal, so Equal and comparing Strings agree |
| Sys.EyeLabel | src/pkg/sys/sys.go:144-146 | an Id's name is at least two characters long and holds no '.', so it is one host label |
| Sys.EyeNotWWW | src/pkg/sys/sys.go:144-146 | no Id is named "www" |
| Sys.ParseDialKey | src/pkg/sys/dialkey.go:43-50 | an invalid Eye string gives the decode error; otherwise the key whose two's-complement uint64 the string names |
| Sys.ParseDialKeyString | src/pkg/sys/dialkey.go:43-58 | ParseDialKey(dk.String()) returns dk, negative keys included |
| Sys.DialKeyStringInjective | src/pkg/sys/dialkey.go:52-58 | two keys have the same string exactly when they are equal |
| Sys.Proto | src/pkg/sys/dialkey.go:64-66 | UnprotoDialKey of the wire form gives the key back |
| Sys.UnprotoDialKey | src/pkg/sys/dialkey.go:68-71 | never fails, and Proto of its result is the wire form it was given |
| Sys.Me.Init | src/pkg/sys/sys.go:79-83 | the Id becomes the Id of the new key's public half, the key is stored, and the other fields are unchanged |
| Sys.Friend.Init | src/pkg/sys/sys.go:118-129 | the accept and hello keys are set and nothing else changes; the friend is then complete exactly when its Id, signature key and dial key are present |
| Sys.MakeHostLabels | src/pkg/sys/env.go:42-49 | the labels of MakeHost(prefix, id) are the prefix if non-empty, the Id's name, "5ttt" and "org" |
| Sys.MakeURLShape | src/pkg/sys/env.go:52-59 | the URL is "http://" and the host, then the path, with a '/' inserted exactly when the path is non-empty and lacks one |
| FeReqType.ClassifyMadeHost | src/pkg/fe/reqtype.go:34-63 | id.5ttt.org is a Tonika request for id, a.id.5ttt.org an Admin request for id, and any other dot-free prefix gives a Bad request with id 0 |
| FeReqType.ClassifySiteHost | src/pkg/fe/reqtype.go:44-47 | 5ttt.org is a WWW request |
| FeReqType.ClassifyWWWHost | src/pkg/fe/reqtype.go:44-47 | www.5ttt.org is a WWW request |
| FeReqType.ClassifyAdminHost | src/pkg/fe/reqtype.go:48-50 | a.5ttt.org is an Admin request with id 0 |
| FeReqType.NonWWWIsSubdomain | src/pkg/fe/reqtype.go:38-43 | any host that is not a WWW request ends in ".5ttt.org" |
| FeReqType.GetRequestType | src/pkg/fe/reqtype.go:34-63 | WWW and bad requests carry id 0; any other answer needs a host under 5ttt.org whose next label is "a" or a valid id name other than www; a Tonika request is exactly three labels, the first of which parses to the id |
| GoStrings.JoinSplit | src/pkg/fe/reqtype.go:35 | joining the pieces of strings.Split with the separator gives the string back |
| GoStrings.SplitJoin | src/pkg/sys/env.go:42-47 | splitting a join of separator-free pieces gives the pieces back |
| Wwwd.IsDownloadIff | src/cmd/wwwd/server.go:204-207 | isDownload holds exactly when the path has a '/' and what follows the first one is "download", alone or followed by a '/' |
| Wwwd.IndexIsNotDownload | src/cmd/wwwd/server.go:200-207 | a path that isIndex accepts is never a download |
| Wwwd.DownloadPath | src/cmd/wwwd/server.go:204-207 | every path under /download/ is a download |
| Wwwd.DownloadsToString | src/cmd/wwwd/server.go:265-285 | the two loops print DownloadsText(d): the groups of three digits from the top, the first as "%d", the rest as "%03d", joined by ',' |
| Wwwd.SplitGroups | src/cmd/wwwd/server.go:266-274 | p[j] is group j of d under Go's truncating / and %, and k is one past the top non-zero group, with nothing of d left above it |
| Wwwd.DownloadsZero | src/cmd/wwwd/server.go:275-277 | zero prints as "0" |
| Wwwd.DownloadsDecimal | src/cmd/wwwd/server.go:265-285 | for d >= 0, deleting the commas leaves the decimal of d without leading zeros |
| Wwwd.DownloadsGroups | src/cmd/wwwd/server.go:279-283 | for d >= 0, the leading group has one to three digits and no leading zero, and every later group has exactly three digits |
| Wwwd.DownloadsNegative | src/cmd/wwwd/server.go:268-283 | a negative count prints a sign in every group: -1234 prints as "-1,-234" |
| GoStrconv.DecimalThousands | src/cmd/wwwd/server.go:279-283 | the decimal of a * 1000 + b (a >= 1, b < 1000) is the decimal of a followed by b zero-padded to three digits |
| Needle.Kept | src/pkg/needle/server.go:69-78 | the swept table holds exactly the clients not stale at now (plus any not yet visited), each unchanged |
| Needle.Server.Expire | src/pkg/needle/server.go:69-78 | the loop over the table leaves exactly the clients whose now - lastSeen, in int64 arithmetic, is at most ClientFreshness |
| Needle.Server.UpdateClient | src/pkg/needle/server.go:80-95 | a known id has its lastSeen and addr updated in place, an unknown one is inserted; either way the entry becomes (id, now, addr) and every entry stays filed under its own id |
| Needle.PingedSurvives | src/pkg/needle/server.go:69-95 | a client that has just pinged survives a sweep at the same time |
| Needle.FreshnessBound | src/pkg/needle/server.go:74 | the comparison is strict: a client exactly ClientFreshness old survives, one a nanosecond older is removed |
| Needle.ExpireIdempotent | src/pkg/needle/server.go:69-78 | a second sweep at the same time removes nothing more |
| OneHop.OneHopRouting.MakeOneHopRouting | src/pkg/routing/onehop.go:35-37 | the own id is recorded and there are no neighbours |
| OneHop.OneHopRouting.Id | src/pkg/routing/onehop.go:59 | the own id |
| OneHop.OneHopRouting.OnAddNeighbor | src/pkg/routing/onehop.go:41-43 | nid is inserted with the time, and SourceCount grows by one exactly when nid was new |
| OneHop.OneHopRouting.OnRemoveNeighbor | src/pkg/routing/onehop.go:45-47 | nid is deleted, and SourceCount shrinks by one exactly when nid was a neighbour |
| OneHop.OneHopRouting.FlowStep | src/pkg/routing/onehop.go:83-89 | the hop is t exactly when t is a neighbour, otherwise the error is "no route"; s plays no part |
| OneHop.OneHopRouting.Neighbors | src/pkg/routing/onehop.go:61-71 | the array lists every neighbour exactly once, and its length is SourceCount - 1 |
| Compass.Compass0.MakeCompass0 | src/pkg/compass/compass.go:60-73 | one-hop routing for the own id and an empty registry |
| Compass.Compass0.AddLiaison | src/pkg/compass/compass.go:191-203 | nil and no change when the id has a liaison; otherwise a new liaison is filed under the id and the id becomes a routing neighbour; the registry and the neighbour table keep the same ids |
| Compass.Compass0.Rem | src/pkg/compass/compass.go:231-249 | the liaison is removed from the registry and the routing table only if it is the one filed under its id; its stream is closed whenever it has one |
| Compass.Compass0.ShutDown | src/pkg/compass/compass.go:288-298 | isHealthy answers nil afterwards |
| Compass.Compass0.QueryQuantize | src/pkg/compass/compass.go:300-308 | the answer is t exactly when t has a liaison, and nil otherwise |
| Compass.Compass0.AcceptOne | src/pkg/compass/compass.go:169-189 | a failed accept changes nothing; an accepted stream for a known peer is closed and nothing else changes; for a new peer it becomes a fresh liaison, added to the registry and the routing table at now, with every other liaison and neighbour unchanged |
| Compass.Compass0.ConnectOne | src/pkg/compass/compass.go:258-286 | a peer with a liaison, or a failed dial, changes nothing; otherwise the dialed stream becomes a fresh liaison, added to the registry and the routing table at now, with every other liaison and neighbour unchanged |
| Tubes.Decoded | src/pkg/util/tube/tube.go:48-64 | a decode succeeds exactly on an open tube whose next struct has the requested type, and then yields that struct; EBADF once closed, EOF when the peer sends nothing more |
| Tubes.Encoded | src/pkg/util/tube/tube.go:48-64 | an encode succeeds exactly on an open tube whose peer still takes input |
| Tubes.Tube.constructor | src/pkg/util/tube/tube.go:55-65 | a new tube has sent nothing, is open and unencrypted, and will read the peer's input in order |
| Tubes.Tube.Encode | src/pkg/util/tube/tube.go:48-53 | a successful encode appends the struct to what was sent; a failed one changes nothing |
| Tubes.Tube.Decode | src/pkg/util/tube/tube.go:48-53 | the decode result is Decoded of the old state, and one struct of input is consumed unless the tube is closed or drained |
| Tubes.Tube.Close | src/pkg/util/tube/tube.go:82-91 | closes the tube, and may be repeated |
| Tubes.Tube.Encrypt | src/pkg/util/tube/tube.go:104-124 | the same stream carries on with the read and write keys installed |
| ConnHandoff.Code | src/pkg/dialer/conn.go:70-79 | the regime constants are 0 to 7 in declaration order |
| ConnHandoff.RegimeNamesDistinct | src/pkg/dialer/conn.go:81-103 | regimeToString gives every regime its own name |
| ConnHandoff.LoneDialerPrevails | src/pkg/dialer/conn.go:377-396 | the ringing side echoes an order below U_OrientMax as one more, with no uint32 wrap, so a lone dialer's call always goes through |
| ConnHandoff.TieBreak | src/pkg/dialer/conn.go:377 | when both ends dial at once with different orders exactly one call prevails; with equal orders both ends think theirs does |
| ConnHandoff.DialAnswer | src/pkg/dialer/conn.go:481-488 | Dial returns the handoff Poll sent back, or EAGAIN when Poll sent nil |
| ConnHandoff.Conn.MakeConn | src/pkg/dialer/conn.go:105-111 | a new Conn is Idle, with no error, id, tube, waiting dial or handoff |
| ConnHandoff.Conn.SetRegime | src/pkg/dialer/conn.go:119-127 | "closed meantime" and no change exactly when the Conn has an error; otherwise the regime is set |
| ConnHandoff.Conn.Kill | src/pkg/dialer/conn.go:276-304 | the first kill stores the error, makes the Conn Closed, drops the id and the waiting dials, and closes the tube; a later kill returns EBADF and changes nothing |
| ConnHandoff.Conn.Attach | src/pkg/dialer/conn.go:189-203 | an errored Conn closes the stream and refuses with "closed meantime"; otherwise it takes the stream as its tube and becomes UnAuth |
| ConnHandoff.Conn.Greet | src/pkg/dialer/conn.go:210-241 | sends our build and version and returns the peer's pair, back in UnAuth; a failed send or read kills the Conn with "greet failed" |
| ConnHandoff.Conn.Auth | src/pkg/dialer/conn.go:245-274 | a successful handshake records the remote id and makes the Conn Ready; a failed one kills it with "auth failed" |
| ConnHandoff.Conn.Close | src/pkg/dialer/conn.go:491-497 | the first Close kills the Conn with EOF and reports nil; a second one reports EBADF |
| ConnHandoff.Conn.CloseIfReady | src/pkg/dialer/conn.go:500-523 | only a Ready Conn is closed; any other regime gives EAGAIN and no change |
| ConnHandoff.Conn.Dial | src/pkg/dialer/conn.go:459-480 | "closed meantime" on an errored Conn, EAGAIN unless Ready, otherwise the Conn is Dialing and the subject waits for Poll |
| ConnHandoff.Conn.FinishCall | src/pkg/dialer/conn.go:419-425 | the completion callback makes a live Conn Ready again and drops its handoff |
| ConnHandoff.Conn.SendCall | src/pkg/dialer/conn.go:409-430 | the subject is sent and the Conn turns Busy behind a fresh handoff for our session, which the dialer receives; a failed send kills the Conn with "send call" and the dialer receives nil |
| ConnHandoff.Conn.ReceiveCall | src/pkg/dialer/conn.go:432-454 | the peer's subject is read and the Conn turns Busy behind a fresh handoff for the peer's session; a failed read or an empty subject kills the Conn with "receive call" |
| ConnHandoff.Conn.PollDial | src/pkg/dialer/conn.go:336-382 | a waiting dial sends our order and session and reads the peer's orient; if ours prevails the call opens and Poll loops on, otherwise the dialer receives nil and the peer's call is taken; a failed exchange kills the Conn with the tube's error |
| ConnHandoff.Conn.PollRing | src/pkg/dialer/conn.go:384-403 | the peer's orient is read and echoed with the order one higher, and the peer's call is taken in the peer's session; a failed exchange kills the Conn with the tube's error |
| ConnHandoff.Handoff.constructor | src/pkg/dialer/handoff.go:57-61 | a new handoff sits on its Busy Conn with empty counters and buffer and an armed callback |
| ConnHandoff.Handoff.CheckForKill | src/pkg/dialer/handoff.go:212-226 | EBADF on a closed channel, EIO on a Conn with an error, otherwise the Conn's tube |
| ConnHandoff.Handoff.Kill | src/pkg/dialer/handoff.go:192-210 | closes the channel, kills the Conn (EBADF if it was dead already) and runs the callback once; on a closed channel EBADF and no change |
| ConnHandoff.Handoff.Write | src/pkg/dialer/handoff.go:121-142 | an empty slice sends nothing; otherwise p goes out as one cargo and the write counters grow; a failed send kills channel and Conn |
| ConnHandoff.Handoff.Read | src/pkg/dialer/handoff.go:66-119 | buffered bytes are served first, oldest first, at most len(p); a new cargo is read only on an empty buffer; an empty cargo means EOF for good; the bytes delivered followed by the buffer are always exactly the bytes received |
| ConnHandoff.Handoff.Refill | src/pkg/dialer/handoff.go:80-103 | the next cargo fills the buffer; an empty cargo sets the end-of-session flag; a failed read kills channel and Conn |
| ConnHandoff.Handoff.TakeBuffered | src/pkg/dialer/handoff.go:105-111 | copies the oldest min(len(p), buffered) bytes into p and removes them from the buffer |
| ConnHandoff.Handoff.Close | src/pkg/dialer/handoff.go:145-189 | the corrected Close: the channel closes for good, the end cargo is sent, the peer's next frame is awaited unless its end was seen, the callback hands the Conn back Ready, and a failed send or wait then kills the Conn with that error |
| ConnHandoff.Handoff.CloseAsWritten | src/pkg/dialer/handoff.go:145-166 | as written: when the end cargo cannot be sent, Close returns the answer of kill, which finds the channel already closed and answers EBADF without killing the Conn or running the callback |
| ConnHandoff.Handoff.End | src/pkg/dialer/handoff.go:177-188 | runs the callback, which hands the Conn back Ready, then kills the Conn if the closing exchange failed |
| ConnHandoff.CloseErr | src/pkg/dialer/handoff.go:163-176 | Close's error is the send's, else the wait's; none when the peer's end was seen already |
| ConnHandoff.StrandedByClose | src/pkg/dialer/handoff.go:145-197 | when the peer takes no more input, Close as written leaves the Conn Busy with no error and its callback never run, and every later Close or kill answers EBADF |
| DialerUtil.Next | src/pkg/dialer/util.go:102-107 | c.k++ on an int64: one more, wrapping from 2^63-1 to -2^63 |
| DialerUtil.Counter.Init | src/pkg/dialer/util.go:96-100 | the counter is back at 0 |
| DialerUtil.Counter.Pick | src/pkg/dialer/util.go:102-107 | the counter advances by one step and the new value is returned |
| DialerUtil.PicksAscend | src/pkg/dialer/util.go:90-107 | from a counter at k, the i-th later Pick returns k + i + 1 while that stays below 2^63, so an initialised counter hands out 1, 2, 3, ... |
| DialerUtil.RunOnClose.constructor | src/pkg/dialer/util.go:77-79 | wraps the stream, with the hook armed exactly when one is given |
| DialerUtil.RunOnClose.Close | src/pkg/dialer/util.go:81-88 | closes the stream every time and returns its error; runs the hook on the first call only |
| DialerUtil.CloseTwice | src/pkg/dialer/util.go:70-88 | two Closes close the stream twice and run the hook at most once |
| DialerUtil.NewDialerConn | src/pkg/dialer/util.go:36-44 | the local and remote addresses are the Eye names of the two ids, so they parse back to those ids; both are on network "tonika" |
| DialerUtil.RemoteAddrIdentifies | src/pkg/dialer/util.go:42-47 | two dialer conns have the same remote address exactly when they lead to the same peer |
| DialerUtil.SetTimeout | src/pkg/dialer/util.go:48-50 | the timeout setters change nothing and return nil |
| Auth.HelloProto | src/pkg/sys/auth.go:155-169 | the wire form of a hello public key reads back as that key |
| Auth.KeysAgree | src/pkg/sys/auth.go:209-226 | each side's write key (keyAB) is the other side's read key (keyBA), whatever the hash |
| Auth.SwapHello | src/pkg/sys/auth.go:153-172 | sends our hello key and returns the peer's; the tube's error otherwise |
| Auth.SwapHalves | src/pkg/sys/auth.go:174-202 | sends our key halves sealed under the peer's hello key and returns the peer's halves opened with our private hello key; the first failure otherwise |
| Auth.AuthHello | src/pkg/sys/auth.go:151-216 | succeeds exactly when all four exchanges and the sealing and opening do; the tube then reads with keyBA and writes with keyAB; a failure leaves the keys unchanged |
| Auth.ConnectRound | src/pkg/sys/auth.go:45-86 | after the hello, the dialing side succeeds exactly when every exchange gets through, the dial key the peer returns is our accept key for it, and the peer's signature on our challenge verifies; a different dial key is "DialKey does not match AcceptKey" |
| Auth.AuthConnect | src/pkg/sys/auth.go:37-89 | succeeds exactly when the hello and the challenge round do, and then returns the Id of the friend's signature key and an encrypted tube; every failure returns Id 0 |
| Auth.AcceptRound | src/pkg/sys/auth.go:99-145 | after the hello, the accepting side succeeds exactly when a friend is found for the dial key sent, our signature goes out and the friend's signature on our challenge verifies; no friend found is "No remote auth" |
| Auth.AuthAccept | src/pkg/sys/auth.go:91-148 | succeeds exactly when the hello and the round do, and then returns the Id of the signature key of the friend the lookup found; every failure returns Id 0 |
| Auth.SoundHonest | src/pkg/sys/auth.go:178-202 | primitives that seal, open, sign and verify correctly serve every pair of runs |
| Auth.RoundKinds | src/pkg/sys/auth.go:45-76 | a round of write, read, write, read writes the two structs and reads the two kinds, in order |
| Auth.SentKindsAppend | src/pkg/sys/auth.go:37-89 | the structs written by two parts of a run are those of the first part and then those of the second |
| Auth.ReceivedKindsAppend | src/pkg/sys/auth.go:37-89 | the kinds read by two parts of a run are those of the first part and then those of the second |
| Auth.DialerRun | src/pkg/sys/auth.go:37-89 | against an honest acceptor holding the matching keys, AuthConnect succeeds and derives the session keys of both hellos |
| Auth.DialerKinds | src/pkg/sys/auth.go:37-89 | a successful AuthConnect writes hello key, halves, M1 and M2 of the dialing side and reads the acceptor's four |
| Auth.AcceptorRun | src/pkg/sys/auth.go:91-148 | against an honest dialer, AuthAccept finds the friend by its dial key, succeeds, and derives the session keys of both hellos |
| Auth.AcceptorKinds | src/pkg/sys/auth.go:91-148 | a successful AuthAccept writes the accepting side's four structs and reads the dialer's four |
| Auth.Handshake | src/pkg/sys/auth.go:37-148 | two friends holding each other's signature keys and matching dial and accept keys both succeed: each gets the other's Id, each side's write key is the other's read key, and each reads structs of exactly the kinds the other wrote, in order |
| Dialer.Shortfall | src/pkg/dialer/tel.go:153-163 | a rebalance asks for new connects exactly when authenticating plus ready conns fall short of preConnect (3), and then for exactly the missing number |
| Dialer.ReadyKept | src/pkg/dialer/tel.go:166-182 | the trim keeps every ready conn up to 2*preConnect and cuts the excess down to 2*preConnect; some ready conn survives exactly when one was there |
| Dialer.Telephone.MakeTel | src/pkg/dialer/tel.go:55-70 | a live telephone with the given home, auth, address and rating, no conns and no pending authentications, presence reachable and maybe-online with the initial rating |
| Dialer.Telephone.ReadyBusyCounts | src/pkg/dialer/tel.go:117-126 | the ready count is the number of conns in the Ready regime and ready plus busy is the number of conns |
| Dialer.Telephone.GuessOnline | src/pkg/dialer/tel.go:128-144 | a live telephone's presence becomes maybe-online exactly when it has a ready conn, and a status update is announced exactly when that guess changes; a dead one changes nothing |
| Dialer.Telephone.TrimConns | src/pkg/dialer/tel.go:165-183 | failed conns are dropped and closed, ready conns beyond 2*preConnect are closed, every other conn stays untouched, and the ready count becomes ReadyKept of the old one |
| Dialer.Telephone.Rebalance | src/pkg/dialer/tel.go:146-185 | a dead telephone is untouched; a live one starts Shortfall connects when reachable, trims to ReadyKept and refreshes its online guess |
| Dialer.Telephone.RebalanceLive | src/pkg/dialer/tel.go:153-184 | the live branch of rebalance, with the same connect count, trim and presence outcome stated outright |
| Dialer.Telephone.KillConn | src/pkg/dialer/tel.go:396-404 | the conn leaves the telephone's set and is closed; nothing else changes |
| Dialer.Telephone.Kill | src/pkg/dialer/tel.go:261-269 | the telephone is dead, keeps no conns, and every conn it held is closed |
| Dialer.Telephone.Receive | src/pkg/dialer/dialer.go:205-214 | a dead telephone answers EBADF and leaves the dialer alone; a live one hands the call to the dialer's receive |
| Dialer.Telephone.Register | src/pkg/dialer/tel.go:82-115 | a dead telephone refuses the conn and changes nothing; a live one admits it, records the arrival of the friend's id and is then maybe-online, and the rebalance that follows keeps min(ready, 2*preConnect) Ready conns counting the new one, keeps every busy conn, and closes every conn it drops |
| Dialer.Telephone.Dial | src/pkg/dialer/tel.go:361-394 | a dead telephone returns nil at once; otherwise at most maxDialTries (7) passes, all of them when nothing answers; a returned call wraps the answer, in the last pass, of a conn that was pooled, Ready and error-free when dial began, with the end-of-call hook armed |
| Dialer.Telephone.DialPass | src/pkg/dialer/tel.go:368-390 | one pass over a snapshot of the conns; a returned call wraps the answer of a conn that was pooled, Ready and error-free at the start of the pass; no conn becomes Ready or error-free during a pass |
| Dialer.Telephone.TryConn | src/pkg/dialer/tel.go:377-389 | a call is returned only from a Ready conn without error, wrapped with the armed end-of-call hook for this telephone and conn; otherwise a conn in error is killed, and every other conn stays, as it was |
| Dialer.Telephone.Evict | src/pkg/dialer/tel.go:387-389 | the tried conn is killed exactly when it is in error, and is otherwise untouched; no other conn leaves |
| Dialer.Call.constructor | src/pkg/dialer/tel.go:380-385 | the won handoff, the telephone and the conn, with the hook armed |
| Dialer.Call.Close | src/pkg/dialer/util.go:81-88 | the handoff is closed every time; the first Close also runs the hook, after which a conn errored by then has left the pool, no Closed conn stays, and at most 2 * preConnect are Ready; later Closes leave the telephone alone |
| Dialer.Call.CloseHandoff | src/pkg/dialer/util.go:82 | closing the handoff leaves the telephone and every conn but the handoff's owner as they were |
| Dialer.Call.RunHook | src/pkg/dialer/util.go:83-86 | the hook runs only while armed and disarms itself |
| Dialer.Call.Hook | src/pkg/dialer/tel.go:380-385 | an errored conn is killed and the pool rebalanced, so it holds no Closed conn and at most 2 * preConnect Ready ones |
| Dialer.CloseAll | src/pkg/dialer/tel.go:261-269 | every conn of the set ends Closed |
| Dialer.Clamp | src/pkg/dialer/tel.go:168-181 | the number of ready conns the trim closes: none without an excess, else the excess capped by the ready count |
| Dialer.TrimOne | src/pkg/dialer/tel.go:169-181 | a failed conn is dropped; a ready conn is closed and dropped while there is an excess, which then shrinks by one; any other conn is kept untouched |
| Dialer.TrimCount | src/pkg/dialer/tel.go:169-182 | after the whole range the kept ready conns number the initial ready count minus Clamp of the excess |
| Dialer.Trim | src/pkg/dialer/tel.go:166-183 | the range loop of rebalance: kept conns are a subset left untouched, dropped ones are closed, non-ready live conns all stay, and the ready count drops by exactly Clamp of the excess |
| Dialer.Dialer0.Empty | src/pkg/dialer/dialer.go:72-79 | a dialer with no listener, no telephones, no listens, no error and no events |
| Dialer.Dialer0.Bind | src/pkg/dialer/dialer.go:94-109 | the previous listener is closed; on success the new one is installed and the error cleared, on failure the listen error is returned and the dialer has no listener |
| Dialer.Dialer0.GetTel | src/pkg/dialer/tel.go:273-281 | the telephone registered under the id, and none exactly when there is none |
| Dialer.Dialer0.LookupTelAuth | src/pkg/dialer/tel.go:298-306 | the remote auth of the telephone registered under the dial key, and none exactly when there is none |
| Dialer.Dialer0.Arrived | src/pkg/dialer/dialer.go:249-251 | one arrival of the id is appended; nothing else changes |
| Dialer.Dialer0.AnnounceOnline | src/pkg/dialer/dialer.go:257-259 | one status update for the id is appended; nothing else changes |
| Dialer.Dialer0.Add | src/pkg/dialer/tel.go:283-296 | a known friend changes nothing; a new one gets a fresh live telephone indexed by id and by accept key, preConnect connects, and an offline status update |
| Dialer.Dialer0.Revoke | src/pkg/dialer/tel.go:320-332 | an unknown friend changes nothing; a known one leaves both indices and its telephone is dead with all its conns closed |
| Dialer.Dialer0.Update | src/pkg/dialer/tel.go:308-318 | the indices are unchanged; a known friend's telephone gets the new address, is reachable again and, when live, starts its shortfall of connects |
| Dialer.Dialer0.PresenceOf | src/pkg/dialer/tel.go:334-344 | the friend's presence with the telephone's uptime rating, and none exactly for an unknown friend |
| Dialer.Dialer0.Dial | src/pkg/dialer/tel.go:346-359 | nothing for an empty subject or an unknown friend; a call comes back as a conn whose local address names our id and whose remote address names the friend, carrying the telephone's armed end-of-call hook around a conn's answer |
| Dialer.Dialer0.Receive | src/pkg/dialer/dialer.go:216-227 | with no listener for the subject the call is refused and nothing changes; otherwise the listen is consumed and the ring queued for it |
| Dialer.Dialer0.Accept | src/pkg/dialer/dialer.go:229-236 | a listen is registered for the subject, which must not already have one |
| Dialer.Dialer0.SetError | src/pkg/dialer/dialer.go:267-271 | the dialer's error becomes the given one; nothing else changes |
| Dialer.Dialer0.AcceptInbound | src/pkg/dialer/dialer.go:150-203 | a conn is handed to a telephone exactly when the greet can be sent and read and the handshake authenticates an id that has a telephone; it then goes to that id's telephone, whose friend's arrival is recorded when it is alive |
| Dialer.Dialer0.AuthInbound | src/pkg/dialer/dialer.go:151-190 | the unauthenticated set is restored afterwards; success exactly when the greet can be sent and read and the handshake succeeds; a failure leaves the conn Closed, a success leaves it Ready with the remote id |
| Dialer.MakeDialer0 | src/pkg/dialer/dialer.go:71-86 | the listen error, or a fresh dialer bound to the listener with no friends, listens or error |
| Dialer.OneCallPerAccept | src/pkg/dialer/dialer.go:216-243 | an Accept takes one call: the first Receive on the subject is queued and a second finds no listener |
| Core.Written | src/pkg/core/core.go:295-329 | the five accepted keys change exactly their own field (a signature key also the Id); slot, accept key, hello key and extra fields stay; any other key gives none |
| Core.ReservedThenKeyed | src/pkg/core/core.go:274-329 | a reserved friend given a signature key and then a dial key is complete, its Id is the signature key's Id, and it presents that Id, both keys and the reserved accept key to the dialer |
| Core.ReplayAppend | src/pkg/core/core.go:255-359 | the dialer calls compose: replaying two runs of calls is replaying the second on the outcome of the first |
| Core.SyncInstalls | src/pkg/core/core.go:350-359 | Revoke then Add sets the dialer's entry for the friend to exactly its current remote and address, whatever entry was there |
| Core.SyncReplay | src/pkg/core/core.go:350-359 | after any earlier calls, the calls Sync appends leave the friend's dialer entry at its current fields and every other entry as it was |
| Core.AddAloneKeepsStale | src/pkg/dialer/tel.go:283-289 | Add on an id the dialer already knows changes nothing, which is why Sync revokes first |
| Core.UpdateOnlyKnown | src/pkg/dialer/tel.go:308-318 | Update changes only the address of a known id and leaves the table alone for an unknown one |
| Core.Core.constructor | src/pkg/core/core.go:42-51 | a core over the table and hashing, having made no dialer calls |
| Core.Core.SetMy | src/pkg/core/core.go:200-213 | exactly the named field of our own record (Name, Email or ExtAddr) takes the value; any other key is a panic, so a precondition |
| Core.Core.GetBySlot | src/pkg/core/core.go:215-223 | the friend in the slot, or EINVAL exactly when the slot is empty |
| Core.Core.GetById | src/pkg/core/core.go:225-233 | a friend holding the Id, or EINVAL exactly when no friend holds it |
| Core.Core.GetByAcceptKey | src/pkg/core/core.go:235-243 | a friend holding the accept key, or EINVAL exactly when no friend holds it |
| Core.Core.GetByDialKey | src/pkg/core/core.go:245-253 | a friend holding the dial key, or EINVAL exactly when no friend holds it |
| Core.Core.Revoke | src/pkg/core/core.go:255-266 | an empty slot changes nothing; otherwise the slot is emptied and the friend's Id, when it has one, is revoked at the dialer; the table's invariants are kept |
| Core.Core.Reserve | src/pkg/core/core.go:274-285 | a fresh friend under a slot that was unused, holding only the generated accept and hello keys; the table's invariants are kept |
| Core.Core.Write | src/pkg/core/core.go:287-330 | EINVAL exactly for an empty slot or an unknown key; otherwise the friend becomes Written of its old fields and is returned; unique Ids stay unique unless the new key's Id is already another friend's |
| Core.Core.Sync | src/pkg/core/core.go:350-360 | an empty slot or incomplete friend makes no call; a complete one is revoked and re-added from a copy of its fields |
| Core.Core.SyncAddr | src/pkg/core/core.go:338-348 | an empty slot or incomplete friend makes no call; a complete one has its address passed to the dialer's Update |
| Buttress.FreeSlotExists | src/pkg/core/db.go:81-89 | while fewer than 2^31 slots are used, some non-negative 32-bit int is free, so the draw loop can end |
| Buttress.Db.MakeFriendDb | src/pkg/core/db.go:69-79 | an empty friends table whose own identity is the generated key and the Id derived from it, with empty name, email and addresses |
| Buttress.Db.GetBySlot | src/pkg/core/db.go:288-294 | the friend filed under the slot, and nil exactly when there is none |
| Buttress.Db.Find | src/pkg/core/db.go:261-286 | a friend carrying the key, and nil exactly when no friend carries it; a nil field matches nothing |
| Buttress.Db.GetById | src/pkg/core/db.go:261-268 | a friend with the Id, nil exactly when none has it, and the only such friend while Ids are unique |
| Buttress.Db.GetByAcceptKey | src/pkg/core/db.go:270-277 | a friend with the accept key, and nil exactly when none has it |
| Buttress.Db.GetByDialKey | src/pkg/core/db.go:279-286 | a friend with the dial key, and nil exactly when none has it |
| Buttress.Db.Enumerate | src/pkg/core/db.go:249-257 | every filed friend exactly once, one per slot |
| Buttress.Db.Remove | src/pkg/core/db.go:259 | the slot is emptied, the others keep their friends, and the table's invariants are kept |
| Buttress.Db.Attach | src/pkg/core/db.go:296-309 | "slot busy" for a used slot, "Duplicate Id" when another friend has the same Id, success exactly otherwise; on success the friend is filed under the slot and records it, on failure nothing changes |
| Buttress.Db.UnusedSlot | src/pkg/core/db.go:81-89 | a non-negative 32-bit int no friend is filed under |
| Buttress.Kept | src/pkg/core/db.go:139-149 | a parse result as the field keeps it: the value on success, nil exactly on error |
| Buttress.SlotOf | src/pkg/core/db.go:131-135 | a record's slot is its Atoi value, and it has none exactly when Atoi fails or gives a negative number |
| Buttress.FromJson | src/pkg/core/db.go:136-171 | the friend built from a record keeps its slot and texts, and each Id and key is the parsed value or nil exactly when its parse fails |
| Buttress.LatestSpec | src/pkg/core/db.go:172-176 | a duplicate slot keeps the latest: the chosen record names the slot, no later record names it, and every slot named by a valid record is filled |
| Buttress.MakeFriend | src/pkg/core/db.go:158-171 | a fresh friend holding exactly the given fields |
| Buttress.LoadFriends | src/pkg/core/db.go:129-178 | the filled slots are exactly those named by valid records, each holding a fresh friend built from the last record naming it |
| Buttress.ReadFriendDb | src/pkg/core/db.go:91-178 | an unparsable own Id or signature key gives a decode error naming that text, and success exactly otherwise; our own fields are copied, and the friends are those of LoadFriends |
| GoPath.CleanRooted | src/pkg/vault/httputil.go:52 | a cleaned request path is rooted exactly when the path was |
| GoPath.CleanRootedNoParent | src/pkg/vault/vault.go:267-274 | a cleaned rooted path is "/" followed by proper elements, none of them "." or "..", so it cannot climb out of the home directory |
| GoPath.CleanIdempotent | src/pkg/vault/vault.go:267 | cleaning a cleaned path changes nothing |
| VaultHttp.Put | src/pkg/vault/httputil.go:89-101 | after the assignment the header holds the value under the key, a nil header being made first |
| VaultHttp.ParseHop | src/pkg/vault/httputil.go:106-122 | a nil header or a missing Vault-Hop is "missing hop"; success exactly when the entry is an int of Atoi that is not negative, and then the count is that value; every error gives -1 |
| VaultHttp.HopRoundTrip | src/pkg/vault/httputil.go:89-122 | parseHop reads back any non-negative count that setReqHop or setRespHop wrote, on any header |
| VaultHttp.NegativeHopRejected | src/pkg/vault/httputil.go:89-122 | a negative count that was written reads back as "invalid hop" |
| VaultHttp.WithVersion | src/pkg/vault/httputil.go:71-85 | Vault-Build holds the build number and Vault-Proto the protocol version; every other entry is as it was |
| VaultHttp.Sanitized | src/pkg/vault/httputil.go:59-67 | a nil header stays nil; otherwise exactly the entries other than the four Vault-* ones remain, with their values |
| VaultHttp.SanitizeUndoesStamp | src/pkg/vault/httputil.go:59-101 | whichever Vault-* entry was stamped, sanitizing removes it and leaves the non-Vault entries as they were |
| VaultHttp.TrimLeft | src/pkg/vault/httputil.go:143 | the leading spaces go: the result is a suffix that does not start with a space, and everything cut is a space |
| VaultHttp.TrimRight | src/pkg/vault/httputil.go:143 | the trailing spaces go: the result is a prefix that does not end with a space, and everything cut is a space |
| VaultHttp.ParseOrigin | src/pkg/vault/httputil.go:133-149 | success exactly when Vault-Origin is present and its trimmed text decodes as Eyeball-64, giving that number; otherwise (0, EINVAL) |
| VaultHttp.OriginRoundTrip | src/pkg/vault/httputil.go:126-149 | parseOrigin reads back the id that setOrigin wrote, on any header |
| VaultHttp.ParseURL | src/pkg/vault/httputil.go:37-55 | success exactly for a host of three labels ending in 5ttt.org whose first label parses as an id; then that id, the cleaned path and the raw query; EINVAL otherwise |
| VaultHttp.ParseURLOwnHost | src/pkg/vault/httputil.go:37-55 | the host <id>.5ttt.org parses to that id with the cleaned path and the query |
| VaultHttp.ParseURLPrefixedHost | src/pkg/vault/httputil.go:42-44 | a host with a further label in front of <id>.5ttt.org is refused with EINVAL |
| VaultHttp.CannedSupported | src/pkg/vault/httputil.go:230-305 | every response a vault makes (503, 404, 400 and the 200 pages) has a status statusCodeSupported accepts, and 201 and 500 are not accepted |
| VaultHttp.Request.constructor | src/pkg/vault/vault.go:90-92 | a request with the given header, host, path and query |
| VaultHttp.Request.SetHop | src/pkg/vault/httputil.go:89-94 | the header, made if nil, gets Vault-Hop in decimal |
| VaultHttp.Request.SetVersion | src/pkg/vault/httputil.go:71-77 | the header, made if nil, gets the build and protocol version |
| VaultHttp.Request.SetOrigin | src/pkg/vault/httputil.go:126-131 | the header, made if nil, gets Vault-Origin, the id's Eyeball-64 name |
| VaultHttp.Response.constructor | src/pkg/vault/httputil.go:240-268 | a duplicate of the canned or received response |
| VaultHttp.Response.SetHop | src/pkg/vault/httputil.go:96-101 | only the header changes: made if nil, with Vault-Hop in decimal |
| VaultHttp.Response.SetVersion | src/pkg/vault/httputil.go:79-85 | only the header changes: made if nil, with the build and protocol version |
| VaultHttp.Response.Sanitize | src/pkg/vault/httputil.go:59-67 | only the header changes: it becomes Sanitized of the old one |
| Vault.Succ | src/pkg/vault/vault.go:102 | hop+1 on a 32-bit int: one more below 2^31 - 1, a negative number at 2^31 - 1 |
| Vault.LocalNameRooted | src/pkg/vault/vault.go:266-274 | the file a rooted path names is index.html for the root, and otherwise the path's resolved elements, none of them "." or "..", joined under the home directory |
| Vault.LocalNameOfCleaned | src/pkg/vault/vault.go:267 | serveLocal's second cleaning of an already cleaned path names the same file |
| Vault.LocalIndex | src/pkg/vault/vault.go:266-281 | "/" and "/index.html" get the same answer, and a missing index.html gives the "No index.html" page with no error |
| Vault.StampKeepsHop | src/pkg/vault/vault.go:124-125 | stamping the origin or the version leaves the hop count as it was |
| Vault.CountIncrements | src/pkg/vault/vault.go:99-105 | on arrival a valid hop count below the int's maximum goes up by exactly one |
| Vault.CountResets | src/pkg/vault/vault.go:99-105 | on arrival a missing or bad hop count restarts at 0 |
| Vault.CountWraps | src/pkg/vault/vault.go:99-105 | on arrival a hop count of 2^31 - 1 wraps to a negative number that reads back as invalid |
| Vault.SentHop | src/pkg/vault/vault.go:123-125 | a request of the vault's own user leaves with hop count 0 |
| Vault.HopsCounted | src/pkg/vault/vault.go:99-105 | after k arrivals a request that left with count n carries count n + k, below the int's maximum |
| Vault.TooManyHopsExactly | src/pkg/vault/vault.go:174-179 | a request for another peer is refused as "too many hops" exactly when its count is missing, bad or above maxHops (10) |
| Vault.ForwardingBound | src/pkg/vault/vault.go:174-179 | a request sent with hop 0 and relayed k times is refused as "too many hops" exactly when k > 10, so no request is forwarded by more than 11 vaults |
| Vault.SourceDefault | src/pkg/vault/vault.go:181-186 | the route starts at the stamped origin, and at this vault when no origin is stamped |
| Vault.RelayedHop | src/pkg/vault/vault.go:216-230 | a response with a status the vault understands keeps its status and body, gets the version and counts one more hop; any other becomes the "unsupported" page |
| Vault.RelayedSupported | src/pkg/vault/vault.go:216-230 | whatever a next hop answers, the relayed status is one statusCodeSupported accepts |
| Vault.LocalAnswer | src/pkg/vault/vault.go:161-172 | a request for this vault's own host is answered from the home directory, with hop 0 when there is no error, and nothing is forwarded |
| Vault.Vault0.constructor | src/pkg/vault/vault.go:58-68 | a healthy vault with the given id, home directory and protocol version |
| Vault.Vault0.ShutDown | src/pkg/vault/vault.go:307-311 | the vault is no longer healthy, so it forwards nothing any more |
| Vault.Vault0.ServeLocal | src/pkg/vault/vault.go:266-299 | the answer is Local of the home directory and path: the file, the "No index.html" page, 404 "not found", or 503 when the file cannot be opened or no descriptor is free |
| Vault.Vault0.Forward | src/pkg/vault/vault.go:174-197 | the answer and the new request header are Forwarded: too many hops, no route, no dialer or no connection give 503, and otherwise the request is fetched from the next hop |
| Vault.Vault0.Fetch | src/pkg/vault/vault.go:201-230 | the request goes out with a hop count and the version; a failed fetch gives 503, a received answer is relayed |
| Vault.Vault0.ServeReq | src/pkg/vault/vault.go:148-264 | the answer, error and request header are Served: 400 for a bad URL, the local answer for the own id, otherwise Forward |
| Vault.Vault0.Answer | src/pkg/vault/vault.go:162-172 | the local answer, stamped with hop 0 when there is no error |
| Vault.Vault0.Serve | src/pkg/vault/vault.go:123-142 | the request leaves with hop 0 and the own id as origin, is served, and its answer loses its Vault-* headers (Mine) |
| Vault.Vault0.Returned | src/pkg/vault/vault.go:216-223 | the response gets this vault's version, and its hop count goes up by one or restarts at 0 |
| Vault.Vault0.Arrive | src/pkg/vault/vault.go:99-105 | the request's hop count goes up by one, or restarts at 0 when missing or bad |
| Vault.Vault0.ServeOnBehalf | src/pkg/vault/vault.go:90-121 | a relayed request is counted one hop further and served, and the answer carries the version (OnBehalf) |

## Left out

- Eye64.U64ToEye: Go's `[32]byte` is a value, so the buffer is a `seq<char>` updated in place; there is no aliasing to model.
- Eye64.EyeToU64: decoding works on characters, with case folding of the ASCII letters only. Go measures the length in UTF-8 bytes and calls strings.ToLower, which folds Unicode case; for example U+212A KELVIN SIGN becomes 'k', so Go accepts some non-ASCII spellings of a name that the model rejects with EINVAL. Eye64.CaseInsensitive is stated for ASCII letter case only.
- GoStrconv.Atoi: models the 32-bit `int` of the Go release the code was written for.
- Varint.DecodeVarint, GoBytes.BytesToInt64: an OR of bit groups that do not overlap is written as an addition.
- Rsa64.PubOf, Rsa64.PrivOf: base64 (RFC 4648 section 4) and `big.Int` are outside the model. Base64 is a pair of parameters, assumed to invert each other and never to emit ','. `big.Int` is a `nat`, with its big-endian byte form.
- Rsa64.PubOf, Rsa64.PrivOf: the fixed 4096-byte decode buffer is not modelled; a field longer than that makes the Go code panic.
- FixFifo.FixFifo: the counters are unbounded; the int64 wrap after 2^63 pushes is not modelled. Pushing a nil value is not modelled, since Pop's nil result could not tell it from an empty FIFO. Slice and String are not modelled.
- Backoff.Backoff.Inc: Ratio is the exact rational num/den and the product is exact; float64 rounding, and the int64 conversion of a product beyond 2^63, are not modelled.
- Replay, FileReader: an underlying reader is a value, the bytes it has left and the error it gives at the end; it always returns as many bytes as it can.
- IoPipe.Pipe.Read: the channel is an unbounded queue; waiting on an empty pipe (a precondition here) and Write blocking on a full channel are concurrency.
- SmallDist.SmallDist.Add: the int64 counters are unbounded; a negative index or a histogram with no buckets panics (preconditions here).
- FileReader, FileWriter: path.Split and path.Join are not modelled. The directory is given as its listing and a map from names to contents, and errors from the operating system are parameters. Gob encoding and decoding are not modelled: a file carries the values it decodes to. Encode and LatestFileEncoder are gob plumbing and are not modelled.
- FileWriter.FileWriter.Recycle: the class uses the corrected generateName, so Write and MakeFileWriter return ERANGE once prefix-99999 exists, where the Go code opens prefix-100000 and carries on. The code as written is FileWriter.FileWriter.RecycleAsWritten; see Findings.
- FileReader.RecoverLatestDecode: a failed decode may garble the value in Go; here the last good value is returned.
- IdKey.IdForKey: SHA-256, base64 and the key's text form are parameters (a `Hashing` value); the hash's Write loop and its error are not modelled.
- Sys: the getters of Me and Friend return fields; the model reads the fields. Id.Mask (a SHA-1 hash) and Id.ToJSON are not modelled. GenerateSigKey, GenerateDialKey and GenerateHelloKey draw random keys; their results are parameters of Me.Init and Friend.Init.
- Sys: the constants Name, WWWURL, Build, Released and the monitor and tangra addresses are not used by the modelled code and are left out.
- FeReqType.ReverseHost: misc.ReverseHost is not part of this model; it is taken to reverse the list of labels.
- Needle: the client records are values in the table rather than shared references; the UDP socket, the packet decoding of poll and the expiry loop's timer are not modelled, and the clock is a parameter.
- OneHop: NewEmptyMsg, OnReceive and PollSend panic and are never called, since NeedBand is false; OnClock and Sweep do nothing; FlowFork builds a floating-point fork; String and MarshalJSON are presentation. None of these is modelled.
- Compass: the watch (traffic telemetry), clockLoop, sweep, read and write are timers, goroutines and the network, and are not modelled. connectLoop and acceptLoop are modelled one round at a time (ConnectOne, AcceptOne). The race in which addLiaison refuses inside connectLoop needs a second goroutine and is not modelled.
- Tubes: gob encoding is not modelled. A tube carries structs as values: what was sent, the peer's whole future input, and how many more structs the peer takes. RC4 (crypto/rc4) is a pair of installed keys. Hijack and the byte counters are not modelled.
- ConnHandoff: the locks (lk, hlk) are not modelled. Poll's select loop is modelled one branch at a time (PollDial, PollRing), and the dial channel is a queue of waiting subjects. Some checks can only fail under a concurrent kill, and they are not modelled: Greet and Auth's second "closed meantime" test, the y == nil tests inside handoff Read and Write after the exchange, and CloseIfReady's EBADF. Connect (net.Dial through the fd limiter), String and MarshalJSON are not modelled. The random orders and sessions are parameters, drawn below U_OrientMax.
- ConnHandoff.Conn.Auth: the handshake run by the authenticating function is a parameter (its outcome); module Auth models the handshake itself.
- DialerUtil: waitForRead's peek and unread (src/pkg/dialer/util.go:53-69) is blocking I/O and is not modelled.
- DialerUtil.RunOnClose: the general runOnClose counts its hook's runs, since the hook is any function. The hook telephone.dial installs is modelled concretely by Dialer.Call.
- Auth: RSA-OAEP, PKCS #1 v1.5 signatures, SHA-1 and SHA-256 are parameters (Crypto). The random hello keys, key halves and challenges are parameters (Draws). BytesToKeyHalves, UnprotoDialKey and UnprotoHelloPubKey never fail in the Go code, so their error branches are not modelled.
- Dialer: the connect, listen and accept goroutines are not modelled, and neither are the Poll loop after register or the sleep between dial passes. The connects rebalance starts are recorded only by their number. telephone.dial's answer from a conn is a parameter, indexed by pass and conn, standing for the Poll loop on the other side.
- Dialer.Telephone.Dial: the conns are snapshotted once per pass as a set; the order in which Go's map range visits them is a free choice here.
- Dialer.Dialer0.Accept: the blocking wait for the ring and the panics on a closed channel are concurrency; Accept registers the listen, and the ring that Receive queues is what the wait would take.
- Dialer.Dialer0.AcceptInbound: Attach, Greet and Auth over the inbound stream are modelled by their outcome; an authenticated conn whose id has no telephone is dropped without being closed, as in the Go code.
- Dialer: the fd limiter, the uptime meter's rating computation and the unused maxPending are not modelled; the rating is a parameter of a telephone.
- Core: the lock, Save, Enumerate's pass-through, the getters of our own record and MakeCore's loading and dialer start-up are not modelled; syncAll is Sync on every slot. The dialer is seen through the list of calls Core makes on it (Revoke, Add, Update).
- Core.Core.Write: a value of the wrong dynamic type, and the disabled key "Id", panic in Go; both are preconditions here.
- Buttress: JSON reading and writing of the friends file (ioutil, json) is not modelled; ReadFriendDb starts from the decoded jsonDb, and the text parsers of keys are parameters. Save is not modelled. UnusedSlot's rand.Int draw is a free choice among the free non-negative 32-bit slots.
- VaultHttp: HTTP parsing and writing, request bodies, ContentLength and chunked transfer encoding are not modelled; a response is its status, header and body. The protocol version string is a parameter. strings.TrimSpace is modelled on the characters of a string rather than on UTF-8 runes.
- GoPath: path.Clean and path.Join come from Go's standard library; they are modelled from their documented rules, not from their code.
- Vault: the watch statistics, the body-close hooks (RunOnClose) and the fd limiter's wait are not modelled; a file that cannot be opened in time is a flag of the Disk parameter. MakeVault0's directory checks and its accept loop are not modelled. The compass's route, the dialer's connection and the next hop's answer are parameters (Net), and a fetch depends only on the next hop. serveOnBehalf's read failure and the response write are I/O.
- Vault: serve's `my` flag only selects which traffic counters to bump, and the re-parse of the hop before the fetch never finds a bad count on a request that passed the hop check; neither changes an answer.
- Vault.Local: only rooted request paths are proved to stay inside the home directory (LocalNameRooted). A relative path such as "../x" keeps its ".." after cleaning, and would name a file outside the home directory. Whether the HTTP layer can deliver such a path is outside this model.

## Findings

| source | as written | input that shows it | evidently intended | confidence | as-written member | corrected member |
|---|---|---|---|---|---|---|
| src/pkg/util/filewriter/writer.go:74-81 | the next name is prefix-%05d of the latest suffix + 1, with no bound on the suffix | a directory holding log-99999: the next name is log-100000, which inFormat (reader.go:85-103) rejects, so the following recycle picks log-100000 again and truncates it | generated names stay in prefix-NNNNN form and are never an existing file; past 99999 an error is returned | high; not executed | FileWriter.NextNameOverflow | FileWriter.CheckedIsFresh |
| src/pkg/http/rewind.go:22-31 | Read copies from the start of body and never advances pos | any non-empty body read twice with a non-empty buffer: both reads return the same bytes and no error, so io.ReadAll never returns | Read copies body[pos:] and advances pos, returning EOF once the body is consumed | high; not executed | Rewind.NeverEnds | Rewind.ReadAll |
| src/pkg/dialer/handoff.go:145-166 | Close clears h.y first; when the end-of-session cargo cannot be sent it returns h.kill(err), which finds h.y nil and answers EBADF | a channel whose peer takes no more input: Close returns EBADF, the Conn stays Busy with no error, and since every later Close or kill answers EBADF, finfun never hands the Conn back | a failed send kills the Conn with the send's error and runs finfun, as a failed wait does (lines 177-188) | high; not executed | ConnHandoff.StrandedByClose | ConnHandoff.Handoff.Close |
