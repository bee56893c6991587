# GoAhead and the PTC310 application: verified core

A Dafny model of the parts of this repository that hold an algorithm, with proofs of what they promise.

| files | part |
|---|---|
| `JsonText`, `JsonRoundTrip`, `JsonLiteral` | the JSON dialect of cJSON.c: which texts it prints and accepts, and that one undoes the other |
| `JsonGrammar`, `JsonStandard`, `JsonLayout`, `JsonSegments` | the same dialect from outside: the grammar of all texts accepted, the standard ones, how trees are laid out, what the minifier keeps |
| `JsonTree`, `JsonList`, `JsonCopy` | the nodes: the parser that builds them, the editing of child lists in place, duplication |
| `JsonPrinter`, `JsonBuffer`, `JsonBuffered`, `JsonMinify`, `JsonWhole` | both printers, on nodes and character arrays, the minifier, and all of it together |
| `ChunkText`, `ChunkLines`, `ChunkReader`, `ChunkWriter` | chunked transfer coding: what a stream is, the resumable decoder, the resumable encoder, and runs of both |
| `Md5`, `Md5Rounds`, `Md5Example`, `Base64` | the streaming digest, its compression function and a test value, and the text coding of crypt.c |
| `Alloc` | the size-class allocator |
| `UriPath`, `Calendar`, `HttpDate` | path normalisation, day numbers and HTTP dates of http.c |
| `IniFile`, `IniSections`, `Crc` | the key-value file and the two table-driven checksums of the PTC310 application |
| `Ascii`, `Powers`, `Wrappers` | digits, C strings, powers of two and division, optional values |

`dafny verify dfyconfig.toml` checks everything.

## How the model reads the source

A C string is the sequence of its characters; a pointer into NUL-terminated text is what follows it, so that moving the
pointer drops a prefix. Buffers that code writes by index are arrays, and every write is proved to be inside. A struct whose
fields change is a class. Where a loop is in the source there is a loop in the model, tied by its `ensures` to a function
of its inputs; what the source promises is then proved about that function. What comes from outside is arbitrary: how
much a socket takes or fails to take, how much room a ring buffer reports, which address `malloc` returns.

Widths: sizes of chunks are those of a 32-bit `ssize` (the application is cross-compiled for 32-bit ARM,
`ptc310_app/Makefile:2`), hextoi and the MD5 counter wrap at 32 bits, C ints bound JSON numbers and buffer sizes, the two
checksums are bit vectors of 8 and 16 bits. Times are those of a wide `time_t`; `HttpDate.FitsThirtyTwoBits` says how far
a 32-bit one goes.

## Where the code is not what one expects

- A write to a key (`set_ini_key_string`) does not leave the section again, so that reading may still find no value after
  it (`IniFile.SetGet` is therefore an equivalence) and it may change a key of a later section: exactly when is
  `IniFile.SetReachesOther`, and what is then read there `IniFile.SetReadThere`. A deletion does the same
  (`IniFile.DeleteReachesOther`).
- Keys match by prefix, so that only prefix-incomparable ones leave each other alone: `IniFile.SetLeavesOthers`,
  `IniFile.DeleteLeavesOthers`.
- `websNormalizeUriPath` treats ".." specially only as the second segment, so a "." before it can make a difference
  (`UriPath.DotBeforeUp`; `UriPath.DotVanishes` says when).
- It does not move other dot-led names down, so that behind a "." or ".." such a name shows what stood in its place: a
  removed name (`UriPath.NameReturns`), a "." or ".." (`UriPath.DotsReturn`), or a longer name once more, in which case the
  result can be longer than the block allocated for it (`UriPath.Overrun`). `UriPath.HeldIsCompact`, `UriPath.HeldNoDots` and
  `UriPath.FitsByExcess` say for every path whether that happens, and `UriPath.HiddenFirstNormal` gives a condition that
  can be read off the path.
- `filterChunkData` refuses a size line of more than 80 characters when it arrives in pieces, but not when it arrives at
  once (`ChunkText.LineLimit`).
- In the growable-buffer mode `print_object` reuses its start variable as a loop counter, so the position it returns is
  right only at depth 0, without formatting, or for an empty object; only that of depth 0 is ever used
  (`JsonBuffered.PutObject`).
- In the unchunked state `filterChunkData` drops what the input buffer has no room for
  (`ChunkReader.PlainReceiver.FilterChunkData`).
- `filterChunkData` returns 0 when it stops for an incomplete size line even if the same call has delivered data.
- `websFlush` sets the state to complete when the output buffer is empty although chunkbuf may not be. The body is then cut
  off (`ChunkWriter.Emptied`), and `ChunkWriter.Sender.Done` says of the state before the call when that happens;
  `ChunkWriter.BodyStays` shows all of a body lost. The theorems on whole bodies speak of the moment when chunking is
  cleared, which is when chunkbuf is empty.
- A chunk size of 2^32 or more is read modulo 2^32 (`ChunkText.LineWraps`).
- The comment in alloc.c that malloc is used by default does not hold for the implicit opening in `walloc`, which passes
  0 for the flags. The model takes the flag as a parameter.
- `dateParse` never reads the RFC 850 form of a date, because the skip over a long weekday name goes past the comma
  (`HttpDate.Rfc850Missed`).
- `cJSON_Minify` takes "/*/" for a whole comment, and `parse_string` takes escapes that JSON does not have
  (`JsonSegments.MinifiesExactly`, `JsonLiteral.TakenMeaning`).
- The K1000A checksum passes over 0x09 bytes, and so over such bytes of a checksum (`Crc.K1000Residue`).

## Model

| member | source | states |
|---|---|---|
| JsonRoundTrip.RoundTrip | goahead_src/src/src/cJSON.c:364-675 | For every tree of null, true, false, C ints, NUL-free strings, arrays and objects, at any depth and in both formats, parsing the printed text, with or without the terminator required, succeeds, consumes all of it and gives the same tree |
| JsonRoundTrip.ValueRoundTrip | goahead_src/src/src/cJSON.c:364-675 | The same for a value printed at any depth and followed by any text that cannot extend a number: exactly the printed part is consumed |
| JsonRoundTrip.StringRoundTrip | goahead_src/src/src/cJSON.c:199-314 | parse_string undoes print_string_ptr on every NUL-free string and never needs more than the buffer its first loop sizes |
| JsonRoundTrip.NumberRoundTrip | goahead_src/src/src/cJSON.c:103-180 | parse_number reads back what `%d` prints for every C int, and stops where the number stops |
| JsonRoundTrip.UnescapeEscaped | goahead_src/src/src/cJSON.c:199-256 | Unescaping the escaped form of a NUL-free string gives the string; the count made before it is at least the length |
| JsonLiteral.LiteralMeaning | goahead_src/src/src/cJSON.c:184-256 | For every literal made of raw bytes, short escapes, `\u` escapes with four hex digits and proper surrogate pairs, parse_string gives the raw bytes and the RFC 3629 encodings, within its len+1 buffer |
| JsonLiteral.TakenMeaning | goahead_src/src/src/cJSON.c:199-256 | The same for every literal of the pieces that parse_string takes besides: an unknown character behind a backslash stands for itself, a `\u` escape without four hex digits, of 0000 or of a low surrogate, a high surrogate alone, and one with a wrong second half count for nothing; a literal without a closing quote ends with the text |
| JsonLiteral.Hex4Places | goahead_src/src/src/cJSON.c:184-196 | Four hex digits in either case are read in their places, and anything else as 0 |
| JsonGrammar.ParsesExactly | goahead_src/src/src/cJSON.c:364-554 | For all texts: parse_value succeeds if and only if the text starts with one of a grammar that has its own account of spaces (the characters 1 to 32), numbers (place values of decimal digits) and keywords, and then gives the value that text means and stops behind it |
| JsonGrammar.AcceptsExactly | goahead_src/src/src/cJSON.c:327-347 | The same for cJSON_ParseWithOpts with its spaces in front, and with or without the terminator required |
| JsonStandard.StandardParses | goahead_src/src/src/cJSON.c:327-554 | Every text of RFC 8259 whose numbers are C ints, with any runs of the characters 1 to 32 in front of, between and behind its tokens, is parsed as what it means and all of it is used |
| JsonStandard.PrintStandard | goahead_src/src/src/cJSON.c:379-675 | What either printer format writes for a printable tree is such a text, and means that tree |
| JsonLiteral.Utf8Decodes | goahead_src/src/src/cJSON.c:225-245 | The bytes written for a scalar value decode, by the bit layout of RFC 3629 section 3, to that value and no other |
| JsonMinify.MinifyFormatted | goahead_src/src/src/cJSON.c:756-771 | Minifying the formatted print of any tree gives exactly its unformatted print |
| JsonSegments.MinifiesExactly | goahead_src/src/src/cJSON.c:756-771 | For all texts: minifying succeeds with a result if and only if the text is a sequence of spaces, comments, literals and single characters of which the result is the literals and characters; the spaces are tab, line feed, carriage return and space, a line comment ends in front of a line feed, a block comment with the first star and slash, which may share its opening star |
| JsonMinify.MinifyInPlace | goahead_src/src/src/cJSON.c:756-771 | The in-place minifier leaves in the block the minified text and a terminator and touches nothing behind the old terminator, although it rewrites the text it is still reading |
| JsonMinify.CopyLiteral | goahead_src/src/src/cJSON.c:767-767 | The string branch copies a whole literal, escapes included, onto the part already written |
| JsonMinify.SkipComment | goahead_src/src/src/cJSON.c:766-766 | The comment branch stops behind the closing marker |
| JsonTree.Parse | goahead_src/src/src/cJSON.c:330-346 | With and without the terminator required: the node-building parser succeeds exactly when the text is accepted (JsonGrammar.AcceptsExactly says when), and then the new nodes represent the parsed value: every child list a doubly linked chain with null ends, all subtrees disjoint |
| JsonTree.ParseValue | goahead_src/src/src/cJSON.c:364-376 | Parsing into a zeroed node gives the same outcome and position as the value parser, and the node represents the value |
| JsonTree.ParseArray | goahead_src/src/src/cJSON.c:413-438 | The loop that allocates, links and fills each next element builds the array that the text denotes |
| JsonTree.ParseObject | goahead_src/src/src/cJSON.c:521-554 | The same for members, whose key is first parsed as the node's own string |
| JsonTree.MoreMembers | goahead_src/src/src/cJSON.c:539-551 | Each further round extends the represented object by exactly the member read |
| JsonTree.ParseString | goahead_src/src/src/cJSON.c:199-256 | The two passes of parse_string write the unescaped text into an array of len+1, never outside it |
| JsonTree.WriteUtf8 | goahead_src/src/src/cJSON.c:236-245 | The fall-through switch that writes bytes backwards produces the UTF-8 form and leaves the other bytes alone |
| JsonTree.ParseNumber | goahead_src/src/src/cJSON.c:103-122 | The digit loops give the value and the position that the number parser defines |
| JsonTree.SkipSpace | goahead_src/src/src/cJSON.c:327-327 | The pointer ends at the first character that is not one of 1 to 32 (JsonStandard.StandardParses is about texts with any of them), or at the terminator |
| JsonTree.SuffixObject | goahead_src/src/src/cJSON.c:683-683 | Linking a node behind the last child extends the chain |
| JsonList.AddItemToArray | goahead_src/src/src/cJSON.c:688-688 | The parent comes to represent its old value with the item appended, as a well-formed chain; a null item changes nothing |
| JsonList.DetachItemFromArray | goahead_src/src/src/cJSON.c:694-699 | The child at the index leaves with null links and its own subtree; the rest is the old sequence without it; out of range returns null and changes nothing |
| JsonList.InsertItemInArray | goahead_src/src/src/cJSON.c:705-706 | The item comes to stand at the index, or at the end if there is no such index |
| JsonList.ReplaceItemInArray | goahead_src/src/src/cJSON.c:707-709 | The item takes the place of the child at the index, which is left detached |
| JsonList.GetArrayItem | goahead_src/src/src/cJSON.c:679-679 | The walk ends at the child at the index, or null past the end; a negative index means the first |
| JsonList.GetArraySize | goahead_src/src/src/cJSON.c:678-678 | The walk counts the children |
| JsonCopy.Duplicate | goahead_src/src/src/cJSON.c:729-754 | The copy of a tree is made of new nodes only and represents the same value; without recursion it is the node alone |
| JsonCopy.CopyChildren | goahead_src/src/src/cJSON.c:743-752 | The loop along the children copies them all, in order, into a well-formed chain |
| JsonPrinter.PrintValue | goahead_src/src/src/cJSON.c:379-410 | The printer that sizes, allocates and fills returns a new block holding exactly the printed text and a terminator |
| JsonPrinter.PrintStringPtr | goahead_src/src/src/cJSON.c:259-314 | The fast path and the escaping path both give the quoted, escaped text |
| JsonPrinter.MeasureString | goahead_src/src/src/cJSON.c:263-285 | The first loop says whether escaping changes the text, and the second finds the exact length of the escaped text |
| JsonPrinter.EscapedPlain | goahead_src/src/src/cJSON.c:263-274 | The fast path is right: without control characters, quotes and backslashes escaping changes nothing |
| JsonLayout.EscapeTable | goahead_src/src/src/cJSON.c:292-308 | By character codes: five control characters have letters, the quote and the backslash get a backslash, the others below 32 are written as two lower-case hex digits behind u00, all other characters stand for themselves |
| JsonLayout.StringLayout | goahead_src/src/src/cJSON.c:259-314 | A string is printed as a quote, the form of each character in order, and a quote |
| JsonLayout.DecimalPlaces | goahead_src/src/src/cJSON.c:165-170 | A number has the decimal digits of its value in their places and no leading zero |
| JsonLayout.ArrayLayout | goahead_src/src/src/cJSON.c:441-518 | An array of any length: its items one level deeper in brackets, a comma between each two and in formatted text a space behind it |
| JsonLayout.MemberLayout | goahead_src/src/src/cJSON.c:646-667 | A member: in formatted text as many tabs as its depth, the key, a colon and a tab, the value |
| JsonLayout.ObjectLayout | goahead_src/src/src/cJSON.c:557-675 | An object of any size: in formatted text each member on a line of its own, one tab deeper than the closing brace; an empty one closes on the next line, one tab less deep; without formatting no space at all |
| JsonPrinter.SizeCovers | goahead_src/src/src/cJSON.c:482-493 | The sizes summed in the first pass of print_array cover every entry with its separator |
| JsonPrinter.ObjectSizeCovers | goahead_src/src/src/cJSON.c:633-645 | The sizes summed in the first pass of print_object cover every member with its tabs, colon, comma and line end |
| JsonPrinter.PrintArray | goahead_src/src/src/cJSON.c:441-518 | Both passes together stay inside the block allocated between them and write the array's text |
| JsonPrinter.PrintObject | goahead_src/src/src/cJSON.c:557-675 | The same for objects, with the empty object's own indentation |
| JsonPrinter.NumberLength | goahead_src/src/src/cJSON.c:162-170 | No C int needs more than 11 characters, so the 21 asked for are enough |
| JsonPrinter.PrintNoNul | goahead_src/src/src/cJSON.c:379-410 | No printed text contains a terminator, so `strlen` and `strcpy` see all of it |
| JsonBuffer.Pow2GtIsPower | goahead_src/src/src/cJSON.c:124-124 | For every argument whose answer is a C int, pow2gt gives the least power of two that is not below it |
| JsonBuffer.PrintBuffer.Ensure | goahead_src/src/src/cJSON.c:128-143 | There is room at the offset afterwards and all text already written is kept; the buffer grows exactly if it is too small, and then to a power of two less than twice what is needed |
| JsonBuffer.PrintBuffer.Update | goahead_src/src/src/cJSON.c:145-151 | The offset returned is the one behind the text at the current offset |
| JsonBuffered.PutValue | goahead_src/src/src/cJSON.c:379-395 | Printing into the growable buffer writes the text at the offset, terminated, keeps what stands before it, and leaves the offset within the text |
| JsonBuffered.PutArray | goahead_src/src/src/cJSON.c:460-475 | The p-mode of print_array writes the same text as the other mode |
| JsonBuffered.PutObject | goahead_src/src/src/cJSON.c:577-623 | The p-mode of print_object writes the same text; the position it returns is the start only at depth 0 or without formatting, since a loop reuses the variable |
| JsonBuffered.PrintBuffered | goahead_src/src/src/cJSON.c:352-360 | Buffered printing gives the text of unbuffered printing for every tree, format and positive first size |
| JsonWhole.PrintParse | goahead_src/src/src/cJSON.c:346-350 | Printing a tree of nodes and parsing the text gives a new tree for the same value |
| JsonWhole.PrintBufferedParse | goahead_src/src/src/cJSON.c:346-360 | The same through the growable buffer |
| JsonWhole.PrintMinifyParse | goahead_src/src/src/cJSON.c:346-350 | Printing, minifying the block in place and parsing it gives the unformatted text and a new tree for the same value |
| JsonWhole.ParseStandard | goahead_src/src/src/cJSON.c:330-346 | Parsing any standard text, with any spaces around it, gives a new tree of nodes for what it means |
| ChunkText.OnTrack | goahead_src/src/src/http.c:1196-1294 | Wherever the decoder stands in a well-formed stream: it has delivered a prefix of the body, meets no error, is at the end exactly when it has consumed the coded body and nothing more, and lacks bytes only while some have not arrived |
| ChunkText.WalkThen | goahead_src/src/src/http.c:1210-1292 | Consuming two pieces in turn is consuming their concatenation |
| ChunkText.ClassifyLine | goahead_src/src/src/http.c:1228-1245 | Of a well-formed size line of at most 80 characters any arrived part is accepted: as soon as it is complete, and never refused before |
| ChunkText.LineLimit | goahead_src/src/src/http.c:1228-1245 | No arrived part of a size line is refused if and only if the line, with the line ends around it, has at most 80 characters; the first 80 of a longer one are refused although the whole is accepted |
| ChunkText.ClassifyLast | goahead_src/src/src/http.c:1246-1260 | The last chunk is accepted once its closing line end has arrived as well |
| ChunkText.ClassifyStable | goahead_src/src/src/http.c:1228-1261 | A delimiter is recognised by its own bytes, whatever follows |
| ChunkText.HexToIReads | goahead_src/src/src/runtime.c:2327-2350 | hextoi reads the size of every well-formed line, extension or not |
| ChunkText.HexToIWraps | goahead_src/src/src/runtime.c:2327-2350 | hextoi reads any size modulo 2^32 |
| ChunkText.LineWraps | goahead_src/src/src/http.c:1228-1245 | A whole size line is taken for its size modulo 2^32 and refused if and only if that is 2^31 or more, so that a larger size can be taken for a smaller one or for the end |
| ChunkLines.DelimiterExactly | goahead_src/src/src/http.c:1228-1261 | For all bytes: they start with a delimiter if and only if they start with a carriage return and a line feed, a line that begins with a hex digit and holds no line feed, and a carriage return and a line feed, twice if the size is 0; and the size read from the line is below 2^31 |
| ChunkLines.ShortExactly | goahead_src/src/src/http.c:1225-1252 | For all bytes: more are waited for if and only if there are fewer than five, fewer than 80 without the end of a line, or the second line end of the size 0 is not whole |
| ChunkLines.HexToIExactly | goahead_src/src/src/runtime.c:2327-2350 | hextoi of hex digits and whatever stands behind them is their value modulo 2^32, with or without an x behind one leading zero |
| ChunkLines.HexPlaces | goahead_src/src/src/runtime.c:2337-2348 | Each hex digit weighs sixteen times the next |
| Ascii.HexTable | goahead_src/src/src/runtime.c:2338-2344 | The sixteen hex digits by character codes, read in either case and written in lower case |
| ChunkReader.HexToInt | goahead_src/src/src/runtime.c:2327-2350 | The loop of hextoi, with its optional 0x and its wrap-around at 32 bits |
| ChunkReader.Receiver.FilterChunkData | goahead_src/src/src/http.c:1225-1294 | For all bytes whatever: every byte leaving the buffer is part of a valid delimiter or is delivered data, the call ends, and it ends only at the end, on a malformed line, on an incomplete one, with all bytes read, or for want of room: then the input buffer is full or bufRoom has reported less than is free, and if there was any room something was delivered |
| ChunkReader.PlainReceiver.FilterChunkData | goahead_src/src/src/http.c:1212-1223 | Without chunks: of the bytes there the filter consumes as many as belong to the announced length, and ends the body with the last; what the input buffer has no room for is lost |
| ChunkReader.PlainDelivers | goahead_src/src/src/http.c:1212-1223 | Where there was room, exactly the announced number of bytes is delivered, however they were cut, the end is reported exactly then, and the rest is left unread |
| ChunkReader.Receiver.ReadDelimiter | goahead_src/src/src/http.c:1224-1273 | The START case consumes a delimiter whole or leaves the bytes alone |
| ChunkReader.Receiver.MoveData | goahead_src/src/src/http.c:1275-1291 | The DATA case delivers exactly the bytes it removes, and stops short of what it could move only where the input buffer is full or bufRoom has reported less than is free |
| ChunkReader.Receiver.Receive | goahead_src/src/src/http.c:797-801 | Bytes from the socket go behind those not consumed |
| ChunkReader.Receiver.ConsumeInput | goahead_src/src/src/http.c:1180-1193 | Reading from the input buffer does not disturb the decoder |
| ChunkReader.SplitIndependent | goahead_src/src/src/http.c:1196-1294 | Two receivers of the same bytes, cut up differently, that were stopped by neither a malformed line nor a full buffer have delivered the same body and keep the same unread bytes; this needs no well-formedness |
| ChunkReader.DecodesStream | goahead_src/src/src/http.c:1196-1294 | A well-formed body in any pieces, with anything behind it, is delivered exactly; eof is set only then, with every later byte left unread, and is set as soon as all has arrived unless the input buffer was full |
| ChunkWriter.Sender.FlushChunkData | goahead_src/src/src/http.c:2006-2062 | From every state the invariant on stream and chunkbuf is kept; it stops only with chunkbuf empty or without reasonable room; chunkbuf is emptied only if everything fits the output buffer as it was (AllFits), and is emptied then unless bufRoom has reported less than is free; without reasonable room nothing changes |
| ChunkWriter.Sender.SelectChunk | goahead_src/src/src/http.c:2022-2029 | The chunk chosen fits with its prefix |
| ChunkWriter.Sender.PutPrefix | goahead_src/src/src/http.c:2031-2043 | The prefix goes out as far as there is room |
| ChunkWriter.Sender.PutData | goahead_src/src/src/http.c:2045-2058 | Data moves from chunkbuf to the current chunk, which is complete when its announced size is reached |
| ChunkWriter.Sender.Flush | goahead_src/src/src/http.c:2069-2107 | Chunking is cleared exactly if the body was declared complete and chunkbuf is emptied, and chunkbuf is emptied only if everything fitted before the call, and then unless bufRoom reported less than is free; coding goes on as long as there is reasonable room. The output buffer is emptied unless the socket has taken nothing at some point of this call. If it is emptied without an error and the body was declared complete, the state is complete, whatever is left in chunkbuf; whatever the socket takes or refuses, the stream only grows |
| ChunkWriter.Sender.Done | goahead_src/src/src/http.c:544-560 | Declaring the body complete flushes, and ends the body exactly if chunkbuf is emptied, which it is not if everything did not fit before the call, whatever rooms are reported; if the output buffer is emptied the state is complete all the same, and it is emptied unless the socket takes nothing |
| ChunkWriter.Emptied | goahead_src/src/src/http.c:2085-2105 | When the output buffer was emptied without an error, the socket has taken all of the stream; this holds a whole coded body if and only if chunking is over, and then the one of every byte accepted |
| ChunkWriter.BodyStays | goahead_src/src/src/http.c:544-560 | So a body can be cut off: behind headers that leave no reasonable room, any body that is declared complete stays in chunkbuf, and if the socket never refuses the state is complete and the headers are all that was sent |
| ChunkWriter.ChunkChosen | goahead_src/src/src/http.c:2022-2031 | The size chosen for a chunk lets nothing fit that did not fit before, and loses nothing if the room reported is all that is free |
| ChunkWriter.RoomNumbers | goahead_src/src/src/http.c:2013-2024 | Room is reasonable from 145 bytes on, and a chunk keeps 32 bytes of the output buffer free |
| ChunkWriter.Sender.WriteBlock | goahead_src/src/src/http.c:2180-2211 | All bytes are taken unless the state is complete or becomes so, or the buffer written to is full, and that after a flush in this call; the bytes taken are appended to the body accepted; only if the body had already been declared complete can some of them go where nothing takes them any more. In a complete state nothing changes |
| ChunkWriter.CodedWhole | goahead_src/src/src/http.c:2076-2084 | Once chunking is cleared the stream is a well-formed coded body whose data is every byte accepted |
| ChunkWriter.CodedPart | goahead_src/src/src/http.c:2006-2062 | Before that the stream is a proper part of one that codes a prefix of what was accepted |
| ChunkWriter.EndToEnd | goahead_src/src/src/http.c:1196-1294 | In every state both sides can reach: the receiver has delivered a prefix of the accepted body and refused nothing; eof implies that chunking is cleared and the whole body delivered; all bytes arrived implies eof unless the input buffer was full |
| ChunkWriter.Run | goahead_src/src/src/http.c:2006-2211 | The same at the end of any sequence of writes, flushes, completion, network transfers of any size, filter calls and reads |
| Md5.Context.Update | goahead_src/src/src/crypt.c:252-275 | The message held in the context grows by exactly the input, for every length below 2^32-63, and no write leaves the 64-byte buffer |
| Md5.Context.constructor | goahead_src/src/src/crypt.c:238-246 | The state at the start holds the bytes 01 23 45 67 89 ab cd ef fe dc ba 98 76 54 32 10 of section 3.3 of RFC 1321 |
| Md5.Context.Finalize | goahead_src/src/src/crypt.c:281-301 | The digest is the fold of the compression function of RFC 1321, from its initial state, over its padded message |
| Md5.CountAdds | goahead_src/src/src/crypt.c:256-261 | The two-word counter, with the carry found by comparison, is eight times the length modulo 2^64 |
| Md5.PaddedWhole | goahead_src/src/src/crypt.c:289-295 | Padding ends on a block boundary and adds 9 to 72 bytes |
| Md5.InitBytes | goahead_src/src/src/crypt.c:241-244 | The initial words, low byte first, are the sixteen bytes of section 3.3 of RFC 1321 |
| Md5.PaddedBytes | goahead_src/src/src/crypt.c:281-295 | The padded message byte by byte: the message, 80, zeros, and eight bytes of which byte k is eight times the length divided by 256^k, modulo 256 |
| Md5.LittleEndianBytes | goahead_src/src/src/crypt.c:398-408 | Byte 4i+k of encoded words is word i divided by 256^k, modulo 256 |
| Md5.HexBytesAt | goahead_src/src/src/crypt.c:222-227 | Characters 2i and 2i+1 of the hex are the high and the low half of byte i, as a digit or a letter from a to f |
| Md5.PaddedInjective | goahead_src/src/src/crypt.c:286-295 | Different messages whose bit lengths fit 64 bits are padded differently |
| Md5.DecodeEncode | goahead_src/src/src/crypt.c:398-421 | decode undoes encode |
| Md5.Encode | goahead_src/src/src/crypt.c:398-408 | The loop of encode writes each word low byte first |
| Md5.DigestPieces | goahead_src/src/src/crypt.c:238-301 | However a message is cut into pieces, the digest is the one of the whole |
| Md5.Md5Block | goahead_src/src/src/crypt.c:201-232 | The returned string is the prefix and the digest in hex, of the length given or, if that is negative, up to the terminator |
| Md5.FoldOne | goahead_src/src/src/crypt.c:263-275 | One block more is one compression more, and of no blocks the state stays as it is |
| Md5Rounds.Transform | goahead_src/src/src/crypt.c:307-394 | The 64 macro calls written out, with their words, rotations and constants, are the 64 steps of section 3.4 of RFC 1321 by its four tables, and the result is added to the state word by word |
| Md5Rounds.FourSteps | goahead_src/src/src/crypt.c:313-316 | Four calls, each with the roles of the four words moved on by one, bring every word back to its place |
| Md5Rounds.MacroIs | goahead_src/src/src/crypt.c:43-79 | Each macro, with its own way of combining bits, is the step that the scheme has at that place |
| Md5Rounds.Decode | goahead_src/src/src/crypt.c:414-421 | The loop of decode gives the sixteen words of a block |
| Md5Example.EmptyDigest | goahead_src/src/src/crypt.c:201-394 | The digest of the empty message is d41d8cd98f00b204e9800998ecf8427e, the first test value of section A.5 of RFC 1321, through padding, all 64 steps, encoding and hex |
| Base64.EncodeDecode | goahead_src/src/src/crypt.c:152-189 | Decoding that stops at '=' undoes encoding, for every block of bytes |
| Base64.EncodedLength | goahead_src/src/src/crypt.c:438-448 | The text is four characters for every started three bytes, and fits twice the length exactly if the length is not 1 |
| Base64.TableOne | goahead_src/src/src/crypt.c:90-125 | Both tables are table 1 of RFC 4648 by character codes, and the decoding one is -1 exactly off it |
| Base64.EncodedAt | goahead_src/src/src/crypt.c:438-469 | Character 4i+k of the encoding is the letter of the k-th six bits of the bytes from 3i on, computed from the bytes, and the equals sign where no bit belongs to a byte |
| Base64.DecodedLength | goahead_src/src/src/crypt.c:152-189 | Text is decoded if and only if all of it is letters of the table, each group of n to n-1 bytes |
| Base64.DecodedAt | goahead_src/src/src/crypt.c:152-189 | Byte 3i+j of what is decoded is the j-th eight bits of the letters from 4i on, computed from their values |
| Base64.Encode64Block | goahead_src/src/src/crypt.c:438-469 | The encoder writes that text into its buffer of 2*len+1 for every NUL-free string but a one-character one, and its guard never cuts a group short |
| Base64.Decode64Block | goahead_src/src/src/crypt.c:152-189 | The decoder returns a buffer exactly if every character before the stop is in the alphabet, and then it holds the decoded bytes; the assertion in its loop holds for every input |
| Base64.RoundTrip | goahead_src/src/src/crypt.c:142-469 | The two functions one after the other give the string back |
| Alloc.ArenaAccount | goahead_src/src/src/alloc.c:95-203 | In every reachable state the blocks carved follow one another without gap or overlap, carved bytes and free bytes make up the arena, every block of class q has a payload of 2^(4+q), and each block is in use or else in the queue of its class |
| Alloc.QueuesApart | goahead_src/src/src/alloc.c:195-202 | No block is twice in the queues |
| Alloc.Allocator.InUseApart | goahead_src/src/src/alloc.c:95-203 | Two blocks in use never overlap, whether they come from the arena or the system |
| Alloc.Allocator.Walloc | goahead_src/src/src/alloc.c:95-172 | A block for at least the size asked, not in use before: the head of its class's queue, or else the next piece of the arena if that leaves some of it free, or else one from the system if that is wanted; null only for a negative size, where the system is not wanted, or where it gives nothing, and then nothing has changed; all other blocks keep their sizes |
| Alloc.Allocator.Wfree | goahead_src/src/src/alloc.c:179-203 | The block leaves the blocks in use and goes to the front of the queue of its class, or back to the system |
| Alloc.Allocator.Wrealloc | goahead_src/src/src/alloc.c:210-232 | A block that holds enough stays as it is; otherwise the result is the block that walloc gives (the head of the queue of its class, or the next piece of the arena) with the old contents, and an arena block that was replaced stands at the front of its queue; no other block in use changes; null for the reasons of walloc alone, and then nothing has changed |
| Alloc.Allocator.FreeThenAllocate | goahead_src/src/src/alloc.c:95-203 | A freed arena block is the next one that a request for its class gets, and the queues are as before |
| Alloc.Allocator.constructor | goahead_src/src/src/alloc.c:51-80 | A newly opened arena is all free |
| Alloc.GetSize | goahead_src/src/src/alloc.c:240-250 | The mask loop finds the class and the block size |
| Alloc.ClassIsLeast | goahead_src/src/src/alloc.c:240-250 | The class of a size is the least whose payload holds it |
| Alloc.ClassNumbers | goahead_src/src/src/alloc.c:240-250 | A block of class q holds 16 times 2^q bytes, and the classes reach up to 65536 bytes |
| Alloc.ClassOfPayload | goahead_src/src/src/alloc.c:192-192 | The class found again from a block's stored size when it is freed is the one it was allocated for |
| UriPath.NormalForm | goahead_src/src/src/http.c:3190-3265 | For every path whose result is not null: it starts with a slash and has no backslash, and it is without "." and ".." segments, and its own normal form, if and only if no hidden name that is kept finds a "." or ".." in its place |
| UriPath.HiddenFirstNormal | goahead_src/src/src/http.c:3190-3265 | Where no hidden name stands behind a "." or "..", as in "/.well-known/x": the result fits its block, and it is null or without "." and ".." segments and unchanged by normalising again |
| UriPath.RelativeRefused | goahead_src/src/src/http.c:3261-3263 | A path that does not begin with a slash is refused, whatever its segments |
| UriPath.HeldIsCompact | goahead_src/src/src/http.c:3222-3246 | For every path: the array holds what stack-like compaction keeps if and only if every hidden name that is kept finds itself in its place |
| UriPath.HeldNoDots | goahead_src/src/src/http.c:3222-3246 | For every path: a "." or ".." is left in the array if and only if some hidden name that is kept finds one in its place |
| UriPath.FitsByTotals | goahead_src/src/src/http.c:3248-3258 | For every path: the result fits the block allocated for it if and only if the segments kept hold at most one character more than there are outside of the slashes that part two segments |
| UriPath.FitsByExcess | goahead_src/src/src/http.c:3248-3258 | The same by the names: if and only if what the shown names of kept segments are longer than their own is within what compaction leaves free |
| UriPath.NoneLongerFits | goahead_src/src/src/http.c:3248-3258 | It fits if no hidden name that is kept shows a longer one |
| UriPath.UndisturbedFits | goahead_src/src/src/http.c:3248-3258 | It fits wherever the array holds what it should |
| UriPath.Overrun | goahead_src/src/src/http.c:3222-3258 | It does not always: "/./" s "/" h, with h hidden, becomes "/" s "/" s, and the block is too small if and only if s is longer than h by more than two |
| UriPath.NameReturns | goahead_src/src/src/http.c:3222-3246 | A name taken away comes back: "/" x "/../" h, with h hidden, becomes "/" x |
| UriPath.DotsReturn | goahead_src/src/src/http.c:3222-3246 | So do dots: for hidden h, "/./" h becomes "/." and "/../" h becomes "/.."; normalised again each becomes "/" |
| UriPath.DotVanishes | goahead_src/src/src/http.c:3222-3230 | A "." in the middle counts for nothing if and only if it does not part the root from a ".." with something behind that does not climb over the root later |
| UriPath.UpUndoes | goahead_src/src/src/http.c:3231-3241 | A ".." in the middle takes the name before it away, under the same condition and no other |
| UriPath.DotBeforeUp | goahead_src/src/src/http.c:3231-3241 | The exception is real: "/../b" gives "/b", but "/./../b" loses its root |
| UriPath.UpFromRoot | goahead_src/src/src/http.c:3231-3234 | A ".." behind the root goes nowhere if and only if the same condition holds, and alone it leaves the root |
| UriPath.LastDot | goahead_src/src/src/http.c:3225-3228 | A "." at the end comes to what a slash there comes to |
| UriPath.LastUp | goahead_src/src/src/http.c:3234-3238 | A ".." at the end takes the name before it away and leaves a slash |
| UriPath.PlainPath | goahead_src/src/src/http.c:3190-3265 | A path from the root without dot segments, empty segments in the middle and backslashes is its own normal form |
| UriPath.HeldPlain | goahead_src/src/src/http.c:3222-3245 | Segments without "." and ".." are all kept, hidden names too |
| UriPath.SplitJoin | goahead_src/src/src/http.c:3207-3258 | Joining and splitting are inverse on segments without slashes that are empty only at the ends |
| UriPath.SlashRun | goahead_src/src/src/http.c:3209-3218 | Two slashes anywhere cut as one does |
| UriPath.CompactSegments | goahead_src/src/src/http.c:3222-3246 | The in-place loop leaves exactly the names described by Held for every path; the index it writes at never passes the one it reads at |
| UriPath.SqueezeHolds | goahead_src/src/src/http.c:3222-3246 | The array before each turn holds in every place the last ordinary name kept at that depth or else what the path has there, and so at the end what Held says |
| UriPath.SplitPath | goahead_src/src/src/http.c:3207-3221 | The splitting loop gives the segments, runs of slashes counting as one, and counts the characters outside of the slashes that part two of them |
| UriPath.Rebuild | goahead_src/src/src/http.c:3248-3258 | The rejoining loop writes the joined text and a terminator inside the block |
| UriPath.NormalizeUriPath | goahead_src/src/src/http.c:3190-3265 | The whole function, for every path whose result fits the block: null exactly when the description says so, and otherwise the text described, in a block of exactly the size computed |
| IniFile.SetGet | ptc310_app/config_operation.c:139-239 | Where the title occurs at most once, the key is plain and the value has no line end or leading space: a write followed by a read gives the value if and only if there was a value to read before |
| IniFile.SetKeepsOthers | ptc310_app/config_operation.c:191-239 | A write changes the reading of no key, of any section, that is prefix-incomparable with the one written |
| IniFile.SetKeepsSections | ptc310_app/config_operation.c:191-239 | Where a write reaches no other section, nothing is read differently in another, not even a key of the same name |
| IniFile.SetHit | ptc310_app/config_operation.c:209-227 | For every file: a write rewrites one line, the first behind the title that the key matches, or there is none and nothing changes |
| IniFile.HitIsFirst | ptc310_app/config_operation.c:209-217 | That line matches, stands behind a line with the title, and no line before it does both |
| IniFile.SetReachesOther | ptc310_app/config_operation.c:191-239 | Where the title occurs at most once, the key is plain and no heading holds an equals sign: a write goes to a line of another section if and only if the titled section lacks the key and some line behind the title matches it |
| IniFile.SetReadThere | ptc310_app/config_operation.c:139-239 | Whoever reads the section where the rewritten line stands finds its old value before and the new one afterwards |
| IniFile.OthersKeptUnless | ptc310_app/config_operation.c:139-239 | In a file whose headings are closed and distinct: a write leaves all other sections as they read if and only if it is not the case that the titled section lacks the key and the first line behind the title that matches it has another value |
| IniFile.SetLeavesOthers | ptc310_app/config_operation.c:139-239 | Two plain keys leave each other alone under writing, in every file, if and only if neither is a prefix of the other |
| IniFile.SetTakesLine | ptc310_app/config_operation.c:209-217 | A line that both keys match is rewritten for the one and read for the other |
| IniFile.AppendDelete | ptc310_app/config_operation.c:18-129 | Deleting a key that was just appended gives the original lines back |
| IniFile.AppendGet | ptc310_app/config_operation.c:18-75 | A key just appended is read with its value |
| IniFile.AppendKeepsOthers | ptc310_app/config_operation.c:18-75 | Appending changes the reading of no key, of any section, that the new line would not be read for |
| IniFile.AppendLeavesOthers | ptc310_app/config_operation.c:18-75 | Appending a plain key leaves another alone in every file if and only if that one is no prefix of it and a space |
| IniFile.DeleteKeepsOthers | ptc310_app/config_operation.c:86-129 | Deleting changes the reading of no prefix-incomparable key |
| IniFile.DeleteHit | ptc310_app/config_operation.c:86-129 | Where the title occurs at most once: a deletion takes out the line that a write would rewrite and no other, or there is none |
| IniFile.DeleteReachesOther | ptc310_app/config_operation.c:86-129 | So it takes a line out of another section if and only if the titled section lacks the key and some line behind the title matches it |
| IniFile.DeleteLeavesOthers | ptc310_app/config_operation.c:86-180 | Two plain keys leave each other alone under deleting, in every file, if and only if neither is a prefix of the other |
| IniFile.File.GetKey | ptc310_app/config_operation.c:139-180 | The reading loop, with comments, headings, the spaces behind the equals sign, and the last character of the line cut off whether it is a line end or not |
| IniFile.File.SetKey | ptc310_app/config_operation.c:191-239 | The writing loop: 0 and the new lines, or -1 and the old ones |
| IniFile.File.AppendKey | ptc310_app/config_operation.c:18-75 | The appending loop: 1 and the new lines, or -1 and the old ones |
| IniFile.File.DeleteKey | ptc310_app/config_operation.c:86-129 | The deleting loop: 1 and the new lines; or the old ones, with 0 if there is such a section and -1 if not |
| IniSections.ReadsValue | ptc310_app/config_operation.c:139-180 | By the text of the lines: behind the first line with the title, what is read is what stands behind the equals sign of the first line with the key, without the spaces in front of it and the last character of the line; lines that begin with # or // count for nothing |
| IniSections.ReadsNothing | ptc310_app/config_operation.c:139-180 | Nothing is read if the file ends, or a heading of another section comes, before such a line, or if there is no title |
| IniSections.WritesValue | ptc310_app/config_operation.c:191-239 | All behind the equals sign of that line is replaced by a space, the value and a line feed, and every other line stays |
| IniSections.AppendsLine | ptc310_app/config_operation.c:18-75 | The new line, of the key, an equals sign between spaces, the value and a line feed, stands in front of the next heading or at the end of the file |
| IniSections.AppendsNothing | ptc310_app/config_operation.c:18-75 | If the section has the key nothing is appended |
| IniSections.DeletesLine | ptc310_app/config_operation.c:86-129 | The first line with the key behind the title goes, and every other line stays |
| Crc.Crc16Modbus | ptc310_app/Protocol/Modbus/ModbusCrc.c:49-66 | The table loop gives, with its bytes swapped, the register of bitwise reflected division by 0xA001 from 0xFFFF |
| Crc.TableStep | ptc310_app/Protocol/Modbus/ModbusCrc.c:56-62 | One table step is eight bits of division, in every state and for every byte |
| Crc.TablesDivide | ptc310_app/Protocol/Modbus/ModbusCrc.c:5-47 | Every entry of both tables is the division of its index |
| Crc.FeedInjective | ptc310_app/Protocol/Modbus/ModbusCrc.c:56-62 | The step is injective in the state and in the byte |
| Crc.FeedTwice | ptc310_app/Protocol/Modbus/ModbusCrc.c:56-62 | Two steps determine both bytes |
| Crc.BurstDetected | ptc310_app/Protocol/Modbus/ModbusCrc.c:49-66 | Two messages of one length that differ, and only within two adjacent bytes, have different checksums, in the register and as returned |
| Crc.DetectsTwoBytes | ptc310_app/Protocol/Modbus/ModbusCrc.c:49-66 | The same from any state, with any bytes before and behind |
| Crc.ModbusResidue | ptc310_app/Protocol/Modbus/ModbusCrc.c:49-66 | Behind its own checksum every message leaves the register at zero |
| Crc.ModbusBytes | ptc310_app/Protocol/Modbus/ModbusCrc.c:49-66 | The low byte of the register comes out on top; the bytes 02 07 leave the register at 1241 |
| Crc.Cal2Crc16 | ptc310_app/Protocol/k1000a.c:47-64 | The loop gives bitwise division by 0x1021 of the message without its 0x09 bytes |
| Crc.K1000Step | ptc310_app/Protocol/k1000a.c:56-60 | One table step is eight bits of division, in every state and for every byte |
| Crc.K1000Residue | ptc310_app/Protocol/k1000a.c:47-64 | The loop over a message and its own checksum gives zero if and only if neither checksum byte is 0x09 |
| Crc.K1000Value | ptc310_app/Protocol/k1000a.c:47-64 | The digits 1 to 9 have the checksum 31C3, with a 0x09 byte anywhere among them or without |
| Calendar.FixedIsOrdinal | goahead_src/src/src/http.c:2691-2711 | The closed form with its floors is the count of days from 1 January of the year 1, for all years from 1 |
| Calendar.NextDayIsNext | goahead_src/src/src/http.c:2691-2711 | The next calendar day has the next number, across month ends, leap Februaries and year ends |
| Calendar.OrderKept | goahead_src/src/src/http.c:2691-2711 | Of two valid dates the earlier one, and only it, has the smaller number |
| Calendar.YearRecovered | goahead_src/src/src/http.c:2716-2736 | GregorianYearFromFixed recovers the year of every valid date |
| Calendar.LeapAgrees | goahead_src/src/src/http.c:2679-2685 | The test with remainders of 400 is the Gregorian rule |
| Calendar.Epoch | goahead_src/src/src/http.c:2691-2711 | 1 January 1970 is day 719163, and 400 years have 146097 days |
| HttpDate.ParsesRfc1123 | goahead_src/src/src/http.c:3001-3043 | For every valid date-time of the years 1 to 9999, dateParse of its RFC 1123 form is 86400 times the days since 1970-01-01 plus the seconds of the day, or for years before 1970 the seconds of the day alone |
| HttpDate.ParsesAsctime | goahead_src/src/src/http.c:2880-2928 | For its asctime form it is the time that is meant in all these years, negative before 1970 |
| HttpDate.Rfc850Missed | goahead_src/src/src/http.c:2934-3043 | The RFC 850 form is never read: for every long weekday and whatever date stands behind it the result is -1 |
| HttpDate.ExampleDate | goahead_src/src/src/http.c:3001-3043 | The example of section 3.3.1 of RFC 2616, in both of the forms read, is 784111777 |
| HttpDate.FitsThirtyTwoBits | goahead_src/src/src/http.c:2809-2815 | A 32-bit `time_t` holds the result exactly up to 03:14:07 on 19 January 2038 |
| HttpDate.DateParse | goahead_src/src/src/http.c:3001-3043 | The parser on a text in any case |
| HttpDate.ParseNDigit | goahead_src/src/src/http.c:2546-2559 | The digit loop, which passes over what is not a digit |
| HttpDate.ParseTime | goahead_src/src/src/http.c:2775-2802 | The seconds of the day, and the index behind them |
| HttpDate.ParseDate1or2 | goahead_src/src/src/http.c:2821-2874 | The seconds from 1970 to the start of the date behind a comma, 0 for earlier years, or -1 |
| HttpDate.ParseDate3Time | goahead_src/src/src/http.c:2880-2928 | Month, day, time and year without a comma, or -1 |

## Left out

- JsonTree.ParseNumber: fractions, exponents and numbers beyond C int are not modelled; a text with one is an outcome of its own, `Unmodelled`, as is every literal whose escapes run past the terminator or past the buffer sized for it.
- The error pointer `ep` of cJSON.c, `return_parse_end`, allocation failure, memory hooks, `cJSON_Delete`, references and constant names; a null `char *` is the empty string.
- cJSON_GetObjectItem and the other by-name functions: a case-insensitive search in front of the operations by index.
- C's length arithmetic in cJSON.c is unbounded in the model; growable buffers are bounded by 2^30 so that pow2gt cannot overflow.
- JsonBuffered.PrintBuffered: a first size of 0 is not modelled, because `malloc(0)` may return null.
- Ring wrap-around, compaction and growth of WebsBuf: a buffer is the sequence of its bytes, and the room reported any part of what is free.
- Keep-alive, events and timeouts around websFlush.
- ChunkReader.Receiver.FilterChunkData: it is not called after eof or after an error, which is how websPump calls it.
- ChunkText.OnTrack: the size lines of a well-formed stream are within the limit of ChunkText.LineLimit.
- Base64.Encode64Block: a one-character input needs two characters more than the buffer has, see Base64.EncodedLength; at a NUL inside a block the loop makes no progress. Neither is covered.
- Base64.RoundTrip: strings of one character are not covered for the same reason.
- wcloseAlloc, shared opening, the integrity check on a block that is not in use, and rounding to four bytes, which changes nothing; the system's malloc never returns memory of the arena.
- UriPath.NormalizeUriPath: what happens to memory when the result does not fit its block is not modelled; UriPath.FitsByTotals and UriPath.FitsByExcess say when it does. Segments are strings, not pointers into a copy.
- GregorianFromFixed is not compiled.
- Calendar.FixedIsOrdinal: years before 1 are not covered; `double` and `floor` are exact for the values that occur.
- File access and line and title buffers of config_operation.c: a file is the sequence of its lines; that a line put behind one without a line end runs on is not modelled.
- The functions of config_operation.c that create files: they write fixed lines.
- Sockets, serial ports, GPIO, threads, shell commands, the instrument protocols other than the K1000A checksum, goahead's authentication, routing, CGI, sessions and upload handlers.
