# libxutils, modelled and proved in Dafny

This project models the cores of libxutils, a C library of data structures, codecs, ciphers and an
event-driven network engine, and proves what they are for. `dafny verify dfyconfig.toml` checks it.

Each core has two layers. A method or class with the fields, arrays and loops of the C code is
proved to compute a function of its inputs or of its old state. Lemmas then prove what the code
promises about those functions: for every input, every run, every reachable state.

| component | files | main results |
|---|---|---|
| JSON parser and writer | `json_*.dfy` | for every text, the parser accepts exactly the grammar of RFC 8259 (with one escape letter more) and returns the tree of the derivation; parsing what the writer prints gives back the tree; what it prints is laid out as a scan of the text says, character by character; escaping is idempotent and keeps the meaning |
| open-addressing map | `map_table.dfy`, `map.dfy` | agreement with a finite map over every run, with tombstones, growth and rehashing; a Put never finds the table full |
| AES and its modes | `aes_*.dfy` | the code computes the cipher of FIPS 197, written apart on rows and columns, with the S-box as the affine image of inverses in the field; the inverse cipher both ways for any round keys, in place; CBC, XBC and whole conversations of them; CMAC is the last block of CBC, doubling is multiplication in the field of 2^128 elements; SIV decryption is the exact partial inverse of encryption |
| epoll and poll engines | `epoll_*.dfy`, `poll_*.dfy` | over every run callbacks are made on live events only, and exactly the events still registered at their turn are served, and called back for exactly the reasons that their flags give; the poll array and the hash agree, and what poll reports is served in order |
| lists and the chained hash | `list.dfy`, `hash*.dfy` | heap lists linked both ways; a finite map over every run; each pair visited once and cleared once |
| WebSocket sessions | `ws_*.dfy`, `byte_buffer.dfy` | handshake safety in every run; a session stops exactly when it is given something to refuse; messages cut into fragments, built into frames, masked and received in any pieces arrive exactly as sent; the bytes of a frame by number |
| SHA-1 and SHA-256 | `sha*.dfy` | any sequence of updates gives the one-shot digest of FIPS 180-4; words, lengths and constants by number, and the published examples |
| array | `array*.dfy` | sorting for every total preorder, through the partition whose pivot moves; four searches |
| Base64 and cipher chains | `base64*.dfy`, `crypt*.dfy` | decoding undoes encoding, which texts are encodings, and each symbol by the six bits it stands for; chains of ciphers are undone by the reversed chain |
| shared | `options.dfy`, `byte_tools.dfy`, `sha_stream.dfy` | |

What comes from outside is a parameter: whether memory was granted (map), the kernel's answers and
batches, sockets, random bytes, keys and IVs, what callbacks answer and do, the HTTP parser and the
acceptance of a handshake. Each theorem is for all of their values.

## What the proofs found

- The scanner takes a NUL that follows a backslash for an escape, because `strchr` matches the
  terminator (`src/data/json.c:206`). `JsonTheorems.NulAfterBackslashAccepted` gives a text, and
  `JsonTheorems.ParserAcceptsGrammar` has the exact language.
- A NUL, or a byte 0xFF, where the name of a member should be makes a parse fail with no error code
  set (`src/data/json.c:958`). `JsonErrors.FailsUntold` has such texts, and `JsonErrors.ErrorTold`
  shows that no other byte can do so.
- A timer whose ERROR callback answers DISCONNECT is deleted by `XEvents_EventCb` and then again by
  `XEvents_TimerService` (`src/net/event.c:349-361`). `EpollTheorems.TimerErrorDisconnect` gives a
  run; `EpollTheorems.RunFromFresh` shows that callbacks that keep the rules make the engine touch a
  dead event exactly when the reaction to such a callback gets rid of the timer.
- In the poll build, deleting an event that was never listed also takes the hash entry of a listed
  event with the same descriptor, and adding an event again without the check for duplicates makes
  it forget its slot. `PollModel.DeleteUnlisted` and `PollModel.AddAgrees` have the exact conditions,
  `PollModel.DeleteUnlistedBreaks` and `PollModel.AddAgainBreaks` runs from a new engine.
- In the poll build an event added or deleted outside the service leaves `bResync` set, and the next
  call of the service stops after one event, whatever poll reported (`src/net/event.c:791-812`).
  `PollService.StaleResync` says so of every state.
- A frame that a WebSocket peer has received before its answer is written stays unhandled when the
  handshake gets done, until another read (`src/net/api.c:1800-1823`). `WsHandshake.FrameWaits` says
  so of every session.
- Removing bytes from a byte buffer returns how many went, except at its end, where it returns how
  many are left (`src/data/buf.c:295-317`). `ByteBuffers.ByteBuffer.Remove` has both.
- XBC decryption adds the header length to the length in the header in 32 bits, so that a length of
  0xFFFFFFFC or more passes the check and bytes of the header come out as plaintext
  (`src/crypt/aes.c:914-998`). `AesModes.XbcHeaderWraps` has such inputs, and `AesModes.XbcAccepts`
  all inputs accepted.
- Inserting into an array at or past its end fails, but leaves the new element in a slot
  that is not counted (`src/data/array.c:398-412`). `Arrays.XArray.Insert` has when.
- `crc32b` cannot be chosen by name, for `crc32` is tried first and only its length is compared, and
  the name written for HS256 is not one that is read (`src/crypt/crypt.c:226-285`).
  `CryptModel.NamesReadBack` has the exact set.
- Base64 decoding accepts texts without padding and with spare bits set, and for the URL alphabet
  also padding and symbols of the other one. `Base64.EncodesExactly` and `Base64.UrlEncodesExactly`
  tell encodings from these.

## Model

| member | source | states |
|---|---|---|
| JsonTheorems.ParserAcceptsGrammar | src/data/json.c:968-1041 | every text parses exactly when it is in the grammar of RFC 8259, sections 2 and 4 to 7, with an object or array at the top, distinct raw names in every object, and NUL for one more escape letter; a NUL-free text, exactly when it is in the grammar of the standard |
| JsonTheorems.ParseSound | src/data/json.c:739-1041 | what parses is derived by the grammar, and the tree returned is the tree of that derivation |
| JsonTheorems.ParseComplete | src/data/json.c:739-1041 | every derivation with distinct names parses, to its tree, with the offset at the end of the input |
| JsonTheorems.GrammarUnambiguous | src/data/json.c:968-1041 | two derivations of one text have the same tree, so a text has one meaning |
| JsonTheorems.NulAfterBackslashAccepted | src/data/json.c:172-211 | a concrete text with NUL after a backslash parses although it is not in the grammar of the standard |
| JsonErrors.ErrorTold | src/data/json.c:968-1041 | a parse that succeeds leaves no error; one that fails leaves the code for bounds only at the end of the text, never the one for an invalid argument, and no code only behind a NUL or a byte 255 |
| JsonErrors.FailsUntold | src/data/json.c:950-961 | a text in which a NUL or a byte 255 follows the opening brace fails without an error code, whatever comes after it |
| JsonErrors.AttachTold | src/data/json.c:374-422 | a value that is put into its parent is refused as already there exactly when it has a name and the name is there |
| JsonTheorems.ItemSound | src/data/json.c:824-855 | one value after its first token: what the parser consumes is the text of the value it adds, and nothing else |
| JsonTheorems.ElemsSound | src/data/json.c:857-880 | the comma-separated values read are the text of a list of elements, appended in order |
| JsonTheorems.MembersSound | src/data/json.c:887-961 | the comma-separated pairs read are the text of a list of members with distinct new names, all added to the map |
| JsonTheorems.ItemComplete | src/data/json.c:824-855 | the text of a value is consumed whole and its tree is added |
| JsonTheorems.ElemsComplete | src/data/json.c:857-880 | the text of a list of elements is consumed whole and its trees are appended in order |
| JsonTheorems.MembersComplete | src/data/json.c:887-961 | the text of a list of members with distinct names is consumed whole and all are added |
| JsonLexer.ScanNumberSound | src/data/json.c:117-170 | a scanned number is an optional sign, digits without a leading zero, and an optional fraction and exponent |
| JsonLexer.ScanNumberComplete | src/data/json.c:117-170 | a number of the grammar not followed by a digit, point or exponent is scanned to its end |
| JsonLexer.ScanStringSound | src/data/json.c:172-211 | what is scanned up to a closing quote is a string body of the grammar, or one with NUL for an escape letter |
| JsonLexer.ScanStringComplete | src/data/json.c:172-211 | a string body of the grammar is scanned whole, up to its closing quote |
| JsonParser.Parser.NextChar | src/data/json.c:98-115 | skips blanks and moves past one character, or reports the end of the input |
| JsonParser.Parser.ParseDigit | src/data/json.c:117-170 | the number scanner: token, offset and error are those of the specification |
| JsonParser.Parser.ParseQuote | src/data/json.c:172-211 | the string scanner: token, offset and error are those of the specification |
| JsonParser.Parser.ParseAlphabet | src/data/json.c:220-250 | true, false and null become literals, any other word is an error |
| JsonParser.Parser.GetNextToken | src/data/json.c:252-303 | the next token, or the same one again after an undo |
| JsonParser.Parser.UndoLastToken | src/data/json.c:81-85 | the last token will be read again |
| JsonParser.Parser.ExpectToken | src/data/json.c:305-312 | reads a token and fails unless it has the kind asked for |
| JsonParser.Parser.ParseItem | src/data/json.c:824-855 | one value into its parent: same state, same tree as the specification |
| JsonParser.Parser.ParseArrayNext | src/data/json.c:857-880 | the loop over elements: same state, same tree as the specification |
| JsonParser.Parser.ParsePair | src/data/json.c:887-948 | one name and value: same state, same tree, a duplicate name refused |
| JsonParser.Parser.ParseObjectNext | src/data/json.c:950-961 | the loop over pairs: same state, same tree as the specification |
| JsonParser.Parser.ParseText | src/data/json.c:968-1041 | the whole parse, which always ends: same state, same result as the specification the theorems are about |
| JsonEscape.EscapeIsBody | src/data/json.c:1320-1403 | escaping any text gives a valid string body |
| JsonEscape.EscapeLexes | src/data/json.c:172-211 | the scanner accepts an escaped text whole, wherever it stands, up to exactly its closing quote |
| JsonEscape.EscapeIdentity | src/data/json.c:1320-1403 | escaping leaves a valid body as it is |
| JsonEscape.EscapeOfLexed | src/data/json.c:1332-1403 | so it leaves every body the scanner accepted as it is |
| JsonEscape.EscapeIdempotent | src/data/json.c:1332-1403 | escaping twice is escaping once |
| JsonEscape.EscapeKeepsMeaning | src/data/json.c:1332-1403 | the characters that the escaped text stands for are those that the text stood for |
| JsonEscape.CountEscaped | src/data/json.c:1332-1360 | the first pass counts exactly the length that the second writes |
| JsonEscape.EscapeString | src/data/json.c:1332-1403 | the two loops together return the escaped text and a NUL, within the counted length |
| JsonWriter.DumpObj | src/data/json.c:1749-1769 | for every well-formed tree and tab size: the text has the length of the tree and is laid out as JsonLayout.LaidOut says, character by character, and that of an array or object parses back to the same tree, with the whole text consumed |
| JsonWriter.Write | src/data/json.c:1700-1717 | into a buffer of the caller: exactly when the text without tabs is shorter than the buffer, and then that text, which parses back to the same tree and has no whitespace outside strings |
| JsonWriter.WriteInto | src/data/json.c:1592-1684 | XJSON_WriteObject on a buffer of the caller, with any tab size: exactly when text and terminator fit, and then the same of the text and of its layout; so a buffer never fails too early or is filled too far |
| JsonLayout.ShapedIsLaidOut | src/data/json.c:1262-1602 | a scan of the text accepts what is printed: outside strings a line ends only after an opening bracket, after a comma and before a closing bracket, the next one begins with a tab of spaces for each bracket still open, one space follows the colon of a name, and there is no other whitespace; with a tab size of 0 there is none |
| JsonLayout.ValueScanned | src/data/json.c:1432-1602 | scanning a printed value leads to what follows it, whatever that is, with as many brackets open as before |
| JsonLayout.BodyScanned | src/data/json.c:1405-1430 | scanning a string body leads to its closing quote and no further |
| JsonSize.MembersInAnyOrder | src/data/json.c:1518-1555 | the length of an object is the same in whatever order its members are visited |
| JsonWriter.ParsedIsWellFormed | src/data/json.c:968-1041 | the tree a parse returns is well formed, so that printing undoes parsing, exactly when the text has no NUL |
| JsonWriter.Writer.Realloc | src/data/json.c:1243-1260 | there is room for n more characters and a NUL afterwards, and the text is unchanged; or the buffer is the caller's and too small |
| JsonWriter.Writer.AppendSpaces | src/data/json.c:1262-1288 | appends the spaces of the current indent |
| JsonWriter.Writer.WriteString | src/data/json.c:1290-1318 | appends the indent if asked for, and the string |
| JsonWriter.Writer.WriteName | src/data/json.c:1405-1427 | appends the quoted name and a colon |
| JsonWriter.Writer.WriteItem | src/data/json.c:1429-1490 | appends a value that is not a container as a derivation of the grammar with its tree |
| JsonWriter.Writer.WriteHashmap | src/data/json.c:1518-1555 | appends the text of an object, in some order of its members, with the same map for its tree |
| JsonWriter.Writer.WriteArray | src/data/json.c:1557-1590 | appends the text of an array with the same elements in order |
| JsonWriter.Writer.WriteObject | src/data/json.c:1592-1613 | appends the text of a tree; the indent comes back to what it was |
| MapTable.RunAgrees | src/data/map.c:255-574 | after any run of operations the table is sound, holds exactly the pairs of a plain finite map run beside it, and looking a key up finds its pair or nothing |
| MapTable.PutCorrect | src/data/map.c:417-455 | Put never meets XMAP_FULL; each status with what it means for the map: refused, out of memory before or after the pair is stored, or stored |
| MapTable.PutKeepsRoom | src/data/map.c:417-455 | after a successful Put at most a quarter of the slots are deleted and used * 10 < size * 7 + 10 |
| MapTable.RemoveCorrect | src/data/map.c:542-574 | removes exactly the key, if it is there, and keeps every other pair reachable |
| MapTable.UpdateCorrect | src/data/map.c:464-480 | on a used slot: changes the value of its key and nothing else |
| MapTable.ReallocCorrect | src/data/map.c:313-362 | growing keeps the map and leaves no deleted slots; without memory the table is exactly as it was |
| MapTable.RehashCorrect | src/data/map.c:364-415 | rehashing in the same size keeps the map and leaves no deleted slots |
| MapTable.FindIsLookup | src/data/map.c:482-532 | probing from the hash finds the slot of a key exactly when the map has it |
| MapTable.GetHashSlot | src/data/map.c:255-294 | the slot chosen for a key is its own, or a free one when the map does not have it; there is none exactly for a new key in a table of used slots |
| MapTable.StoreKeepsPaths | src/data/map.c:296-311 | storing into the chosen slot puts no unused slot on the probe path of any key |
| MapTable.EraseKeepsPaths | src/data/map.c:542-574 | nor does turning a used slot into a deleted one |
| HashMap.XMap.GetHash | src/data/map.c:255-294 | the probe loop returns the slot of the specification |
| HashMap.XMap.GetPair | src/data/map.c:482-504 | the pair of a key, or nothing |
| HashMap.XMap.GetIndex | src/data/map.c:506-532 | whether the key is there, and the index of its slot |
| HashMap.XMap.PutRaw | src/data/map.c:296-311 | stores a pair in place and counts it; XMAP_FULL exactly for a new key in a table of used slots |
| HashMap.XMap.Realloc | src/data/map.c:313-362 | the new table is the specification's; on failure nothing changes |
| HashMap.XMap.Rehash | src/data/map.c:364-415 | the new table of the same size is the specification's |
| HashMap.XMap.Put | src/data/map.c:417-455 | table, counts and status are those of the specification |
| HashMap.XMap.Update | src/data/map.c:464-480 | changes the value at an index; an index outside the table is refused |
| HashMap.XMap.Remove | src/data/map.c:542-574 | table, counts and status are those of the specification |
| HashMap.XMap.Reset | src/data/map.c:134-150 | clears every pair exactly once, and the map is empty |
| HashMap.XMap.Iterate | src/data/map.c:114-132 | visits the pairs in slot order, all of them or up to the first answer that is not XMAP_OK, which it returns |
| HashMap.PairsVisitOnce | src/data/map.c:114-132 | the pairs in slot order are the pairs of the map, each once |
| AesBlock.InvSBoxUndoes | src/crypt/aes.c:23-63 | the inverse table undoes the table on every byte |
| AesBlock.SBoxUndoes | src/crypt/aes.c:23-63 | and the table undoes the inverse table |
| AesBlock.DoubleIsXtime | src/crypt/aes.c:64-85 | the macro for doubling is multiplication by x modulo the polynomial of FIPS 197, section 4.2 |
| AesBlock.MultiplyByNine | src/crypt/aes.c:64-85 | the macro multiply by 9, cut to a byte only at the end, is the product in the field |
| AesBlock.MultiplyByEleven | src/crypt/aes.c:64-85 | the same for 11 |
| AesBlock.MultiplyByThirteen | src/crypt/aes.c:64-85 | the same for 13 |
| AesBlock.MultiplyByFourteen | src/crypt/aes.c:64-85 | the same for 14 |
| AesBlock.InvMixUndoes | src/crypt/aes.c:323-356 | the inverse of MixColumns undoes it on any four bytes |
| AesBlock.MixUndoes | src/crypt/aes.c:323-356 | and MixColumns undoes its inverse |
| AesCipher.DecryptUndoesEncrypt | src/crypt/aes.c:397-440 | for any round keys and any number of rounds, ECB decryption undoes encryption on every block |
| AesCipher.EncryptUndoesDecrypt | src/crypt/aes.c:397-440 | and encryption undoes decryption, so a key gives a permutation of blocks |
| AesFips.EncryptIs | src/crypt/aes.c:397-421 | encryption is the cipher of FIPS 197, section 5.1, on a state of rows and columns, with words 4r to 4r + 3 of the key added in round r; for any round keys and any number of rounds |
| AesFips.DecryptIs | src/crypt/aes.c:423-443 | decryption gives a block exactly when that cipher takes the block to the input |
| AesFips.RoundsAre | src/crypt/aes.c:397-414 | the loop from any round on ends in that cipher when it begins in the state of that round |
| AesFips.AddRoundKeyIs | src/crypt/aes.c:271-282 | column c of the state gets word 4 * round + c of the key |
| AesFips.ShiftRowsIs | src/crypt/aes.c:297-321 | row r of the state moves r places to the left |
| AesFips.MixColumnsIs | src/crypt/aes.c:323-337 | each column of the state is multiplied by the matrix of section 5.1.3, with products in the field |
| AesField.SBoxIs | src/crypt/aes.c:23-40 | the table has, for every byte, the affine image of its inverse in the field; 0 counts as its own inverse |
| AesField.AffineBits | src/crypt/aes.c:23-40 | that affine map bit by bit, as in equation 5.1 |
| AesField.InverseUnique | src/crypt/aes.c:23-40 | a byte has at most one inverse |
| AesField.MulCommutes | src/crypt/aes.c:64-80 | multiplication in the field is commutative |
| AesField.MulAssociates | src/crypt/aes.c:64-80 | multiplication in the field is associative |
| AesCipher.InvRoundsUndo | src/crypt/aes.c:397-440 | the loop down undoes the loop up round by round |
| AesCipher.AddRoundKeyAt | src/crypt/aes.c:271-282 | the round key is added to the block in place |
| AesCipher.SubBytesAt | src/crypt/aes.c:284-295 | every byte of the block is substituted in place |
| AesCipher.ShiftRowsAt | src/crypt/aes.c:297-321 | the rows are rotated in place, through one temporary byte |
| AesCipher.MixColumnsAt | src/crypt/aes.c:323-337 | the columns are mixed in place |
| AesCipher.InvMixColumnsAt | src/crypt/aes.c:339-356 | the columns are mixed back in place |
| AesCipher.InvSubBytesAt | src/crypt/aes.c:358-369 | every byte is substituted back in place |
| AesCipher.InvShiftRowsAt | src/crypt/aes.c:371-395 | the rows are rotated back in place |
| AesCipher.CipherBlock | src/crypt/aes.c:397-415 | the sixteen bytes become the encrypted block, and the rest of the buffer is unchanged |
| AesCipher.EcbDecrypt | src/crypt/aes.c:423-440 | the sixteen bytes become the decrypted block, and the rest of the buffer is unchanged |
| AesModes.CbcRoundTrip | src/crypt/aes.c:725-846 | one message through two CBC contexts comes back and their IVs agree again; with the IV embedded the receiver's own does not matter |
| AesModes.CbcAccepts | src/crypt/aes.c:775-846 | CBC decryption returns p exactly for the input that encrypting p gives |
| AesModes.UnpadUndoes | src/crypt/aes.c:808-846 | the padding check succeeds exactly on padded data (RFC 5652, section 6.3) and gives back what was padded |
| AesModes.XbcRoundTrip | src/crypt/aes.c:848-998 | the same as for CBC for one message with a random prefix, whatever its bytes |
| AesModes.XbcAccepts | src/crypt/aes.c:914-998 | XBC decryption returns p exactly for encryptions of a header, as many bytes as it says and p; or of blocks whose header wraps around in 32 bits, of which p is all but the first bytes of the header |
| AesModes.XbcHeaderWraps | src/crypt/aes.c:914-998 | with a header of 0xFFFFFFFC all that was encrypted comes out as plaintext, the header too |
| AesModes.ConversationRoundTrip | src/crypt/aes.c:725-998 | any sequence of non-empty messages from one context is decrypted by another with the same key and IV to the same sequence, and their IVs agree at the end |
| AesModes.EmbeddedRoundTrip | src/crypt/aes.c:725-998 | with embedded IVs each message comes back alone, into any context |
| AesModes.SivExactInverse | src/crypt/aes.c:649-723 | decryption returns p exactly when p is non-empty and encrypting p gives the input |
| AesModes.SivInjective | src/crypt/aes.c:649-683 | different messages have different SIV ciphertexts |
| AesModes.CtrUndoes | src/crypt/aes.c:610-647 | applying the keystream twice gives the input back |
| AesModes.NextCounts | src/crypt/aes.c:640-645 | the counter step adds one modulo 2^32 to the last four bytes, and leaves the others |
| AesChains.CtrByte | src/crypt/aes.c:609-648 | byte i of the output is that of the input under byte i % 16 of the cipher of the counter i / 16 blocks on, whose last four bytes have counted modulo 2^32 |
| AesChains.FirstCounterIs | src/crypt/aes.c:618-621 | the first counter is the tag with the values of bytes 8 and 12 taken modulo 128 |
| AesChains.CbcBlock | src/crypt/aes.c:725-773 | block j of a CBC output is that of the cipher on block j of the input and the block before it, or the IV |
| AesChains.PadIs | src/crypt/aes.c:741-750 | the padding fills the last block, or one of its own, with its length |
| AesMac.Doubling | src/crypt/aes.c:463-479 | doubling doubles the 128-bit number of the block; when that takes 129 bits, the first goes and 0x87 is added to the last byte: multiplication by x modulo x^128 + x^7 + x^2 + x + 1 |
| AesMac.ShiftedNumber | src/crypt/aes.c:463-479 | the number of the first k bytes of the shifted block, with the bit that falls out and the bit that comes in |
| AesMac.CmacIs | src/crypt/aes.c:481-551 | CMAC is the last block of CBC from a zero IV over the message with its last block masked by the first subkey when whole, and else padded with 0x80 and zeros, by index, and masked by the second |
| AesMac.ChainEnds | src/crypt/aes.c:515-548 | the same from any chaining value on |
| AesMac.S2VIs | src/crypt/aes.c:553-607 | S2V is CMAC of the text with D added to its last sixteen bytes, or, below sixteen bytes, of the text padded with 0x80 and zeros, by index, with D doubled added |
| AesSiv.DblInPlace | src/crypt/aes.c:465-479 | doubling in place is the doubling of RFC 4493 |
| AesSiv.CmacSubKeys | src/crypt/aes.c:482-498 | the two subkeys |
| AesSiv.ComputeCmac | src/crypt/aes.c:501-551 | the tag of any data, with the last block complete or not |
| AesSiv.ComputeS2V | src/crypt/aes.c:557-607 | the synthetic IV of a message with and without a nonce (RFC 5297, section 2.4) |
| AesSiv.Increase | src/crypt/aes.c:640-645 | the carry loop is the counter step |
| AesSiv.CtrInto | src/crypt/aes.c:610-647 | the loop writes the input under the keystream, and nothing else of the buffer |
| AesSiv.ConstTimeEqual | src/crypt/aes.c:453-462 | true exactly for equal bytes |
| AesContext.Context.CbcCrypt | src/crypt/aes.c:725-773 | buffer, length and next IV are those of the specification |
| AesContext.Context.CbcDecrypt | src/crypt/aes.c:775-846 | the same for decryption, with every length and padding check |
| AesContext.Context.XbcCrypt | src/crypt/aes.c:848-912 | the same for XBC |
| AesContext.Context.XbcDecrypt | src/crypt/aes.c:914-998 | the same for XBC decryption |
| AesContext.Context.SivCrypt | src/crypt/aes.c:649-683 | tag and ciphertext are those of the specification |
| AesContext.Context.SivDecrypt | src/crypt/aes.c:685-723 | the plaintext, or nothing when the tag does not agree |
| AesContext.Context.Encrypt | src/crypt/aes.c:1000-1014 | dispatches on the mode |
| AesContext.Context.Decrypt | src/crypt/aes.c:1016-1030 | dispatches on the mode |
| AesContext.OpenedIsSent | src/crypt/aes.c:1000-1030 | in every mode, with AES under any round keys, what one context sends the other opens |
| EpollTheorems.RunFromFresh | src/net/event.c:631-818 | over every run from a new engine in which callbacks keep the rules, every callback is made on a live event, however many others were deleted; and the engine touches a dead event exactly when it served a timer it could not read and the reaction to the ERROR callback removes the timer or asks for DISCONNECT |
| EpollFates.TimerServiceFate | src/net/event.c:349-361 | the same for one timer, as an iff over the reaction |
| EpollTheorems.TimerErrorDisconnect | src/net/event.c:349-361 | such a run from a new engine: a timer whose ERROR callback answers DISCONNECT is deleted twice |
| EpollTheorems.ServesTheLiving | src/net/event.c:774-790 | a batch does what a loop would that never looks at the nulled entries: every event delivered that is still registered at its turn is served, in order, until a callback answers other than CONTINUE, and no other is |
| EpollReasons.ServiceCbTells | src/net/event.c:372-433 | by the flags: a timer calls back with TIMEOUT when it is readable and was read, else with ERROR; another event with CLOSED, HUNGED, ERROR or EXCEPTION alone, else with WRITE and then READ when WRITE lets it go on; besides these only with USER and CLEAR; and what the turn comes to |
| EpollReasons.OwedByFlags | src/net/event.c:372-433 | for each reason, the flags with which a turn calls back for it, as an iff |
| EpollReasons.ServiceTells | src/net/event.c:773-790 | a batch makes the callbacks that its turns are worth, one after the other, ends with the first turn that comes to other than 0, and asks to stop exactly when that is 4 |
| EpollReasons.RunTells | src/net/event.c:372-433 | over every run the callbacks made, but for USER and CLEAR, are those that the turns served are worth |
| EpollReasons.RunTellsFromFresh | src/net/event.c:372-433 | so from a new engine, over its whole history |
| EpollFates.PerformFate | src/net/event.c:556-717 | an event is still registered after the acts of a callback exactly when none of them, in nested clear callbacks too, removes it; and the batch keeps exactly the entries of such events |
| EpollTheorems.RunSound | src/net/event.c:726-818 | the invariant holds over every run of additions, batches and callbacks |
| EpollTheorems.ServiceSound | src/net/event.c:726-818 | one batch keeps it, and leaves no event waiting |
| EpollModel.PerformKeeps | src/net/event.c:556-717 | whatever a callback adds, changes or deletes, however deeply clear callbacks nest, no entry of the batch comes to refer to a dead event |
| EpollModel.DeleteKeeps | src/net/event.c:631-717 | so for one deletion, after which the event is gone |
| EpollEngine.Engine.Add | src/net/event.c:556-602 | registers an event, or undoes what it did when the kernel or the hash refuses (state as in the specification) |
| EpollEngine.Engine.Modify | src/net/event.c:604-629 | changes the mask of a registered event (state as in the specification) |
| EpollEngine.Engine.ForgetAll | src/net/event.c:663-679 | every entry of the batch for the event is set to null (state as in the specification) |
| EpollEngine.Engine.Delete | src/net/event.c:631-717 | unregisters the event and runs its clear callback (state as in the specification) |
| EpollEngine.Engine.ClearCb | src/net/event.c:66-93 | the clear callback runs and the data is freed (state as in the specification) |
| EpollEngine.Engine.EventCb | src/net/event.c:95-113 | the user's callback, and the deletion it may ask for (state as in the specification) |
| EpollEngine.Engine.TimerService | src/net/event.c:349-361 | a timer's service (state as in the specification) |
| EpollEngine.Engine.ServiceCb | src/net/event.c:382-435 | the callbacks of one event (state as in the specification) |
| EpollEngine.Engine.Service | src/net/event.c:726-818 | a whole batch (state as in the specification) |
| PollModel.AddAgrees | src/net/event.c:572-602 | array and hash agree after Add of any data exactly when the check for duplicates is on, or the data is not listed yet, or the array is full |
| PollModel.PerformAgrees | src/net/event.c:556-717 | array and hash agree after every run of allocations, Add, Modify and Delete with nested clear callbacks, as long as each step keeps to the conditions of AddAgrees and DeleteUnlisted |
| PollModel.ModifyAgrees | src/net/event.c:604-629 | and after Modify |
| PollModel.DeleteAgrees | src/net/event.c:681-714 | and after Delete of a listed event, also across the shift down; exactly its descriptor is gone |
| PollModel.DeleteUnlisted | src/net/event.c:681-714 | deleting an event that is not listed keeps them in agreement exactly when no listed event has its descriptor |
| PollModel.DeleteUndoesAdd | src/net/event.c:572-714 | deleting what was just added gives back the array, the index and the count |
| PollModel.DeleteUnlistedBreaks | src/net/event.c:681-714 | from any new engine: an event for a descriptor listed already, deleted without being added, breaks the agreement |
| PollModel.AddAgainBreaks | src/net/event.c:572-602 | from any new engine without the check for duplicates: so does adding an event twice |
| PollService.ServiceServes | src/net/event.c:791-812 | a call of the service serves slots that poll reported, in order, each once, with the data listed for its descriptor when poll returned; all of them unless a callback answers other than CONTINUE or bResync is set; array and hash agree, and callbacks are made on events in memory |
| PollReasons.ServiceCbTells | src/net/event.c:372-433 | by the bits of revents: a turn calls back with CLOSED, HUNGED, ERROR or EXCEPTION alone, else with WRITE and then READ when WRITE lets it go on; besides these only with USER; and what it comes to |
| PollReasons.OwedByBits | src/net/event.c:396-432 | for each reason, the bits with which a turn calls back for it |
| PollReasons.LoopTells | src/net/event.c:791-812 | a call of the service makes the callbacks that its turns are worth, in order, and ends with the first turn that comes to other than 0 |
| PollService.LoopServes | src/net/event.c:791-812 | the same for the loop from any slot on: without bResync the descriptors, the reports still to come and the hash are those poll left |
| PollService.StaleResync | src/net/event.c:791-812 | with bResync set before the call, one event is served at most |
| PollService.PerformSteady | src/net/event.c:556-717 | whatever callbacks do, however deeply nested, either bResync is set or the array and the hash are as before |
| PollService.ServingSound | src/net/event.c:382-440 | the callbacks of one event, in the order of its flags, keep this |
| PollService.RunAgrees | src/net/event.c:556-812 | array and hash agree over every run of registrations and of calls of the service |
| PollModel.SlotsDistinct | src/net/event.c:572-602 | descriptors below the count are distinct |
| PollEngine.Engine.Add | src/net/event.c:556-602 | slot, index and count as in the specification |
| PollEngine.Engine.Modify | src/net/event.c:604-629 | the mask of the event's slot |
| PollEngine.Engine.MoveDown | src/net/event.c:681-709 | the loop that shifts the slots down and looks the moved data up |
| PollEngine.Engine.Unlist | src/net/event.c:681-716 | the array and the hash, for listed data and for any other |
| PollEngine.Engine.Delete | src/net/event.c:631-717 | the whole deletion with its clear callback |
| PollEngine.Engine.Perform | src/net/event.c:556-717 | what a callback does |
| PollEngine.Engine.UserCalls | src/net/event.c:106-110 | the callbacks for USER, one after the other |
| PollEngine.Engine.EventCb | src/net/event.c:95-113 | one callback, and the deletion that it asks for |
| PollEngine.Engine.ServiceCb | src/net/event.c:382-440 | the callbacks of one event in the order of its flags |
| PollEngine.Engine.ServeSlot | src/net/event.c:796-803 | the turn of a slot: its report taken, its data found, its callbacks made |
| PollEngine.Engine.Service | src/net/event.c:791-812 | the loop over the slots, with its two stops |
| HashModel.RunAgrees | src/data/hash.c:116-155 | after any run of Insert and Delete the buckets hold exactly a finite map, every pair in the bucket of its key |
| HashModel.InsertAgrees | src/data/hash.c:116-131 | Insert of a new key adds it to the map, and a key that is there is refused |
| HashModel.DeleteAgrees | src/data/hash.c:143-155 | Delete removes exactly the key |
| HashModel.VisitsTheMap | src/data/hash.c:157-172 | the pairs in bucket order are the pairs of the map, each once |
| Hashes.VisitedAll | src/data/hash.c:157-172 | unless stopped, an iteration visits all of them |
| Hashes.Hash.GetNode | src/data/hash.c:87-93 | the node of the key in its bucket, or null |
| Hashes.Hash.GetData | src/data/hash.c:102-107 | the value of the key, or nothing |
| Hashes.Hash.Insert | src/data/hash.c:116-131 | a new node at the front of the bucket of its key unless the key is there, the other buckets and their nodes where they were |
| Hashes.Hash.Delete | src/data/hash.c:143-155 | the pair of the key is out of its bucket and cleared once, the other pairs where they were |
| Hashes.Hash.Iterate | src/data/hash.c:157-172 | visits the pairs in order until the callback stops it |
| Hashes.Hash.Destroy | src/data/hash.c:74-85 | the clear callback runs once for every pair, and the hash is empty |
| Lists.GetHead | src/data/list.c:111-119 | the first node of the chain, from any node |
| Lists.GetTail | src/data/list.c:121-129 | the last node |
| Lists.Detach | src/data/list.c:74-85 | the node is alone, and the chain without it is still linked both ways |
| Lists.InsertNext | src/data/list.c:178-195 | the node comes right after, and everything else keeps its place |
| Lists.InsertPrev | src/data/list.c:159-176 | the node comes right before |
| Lists.InsertHead | src/data/list.c:197-208 | the node comes first |
| Lists.InsertTail | src/data/list.c:210-221 | the node comes last |
| Lists.Unlink | src/data/list.c:87-97 | out of the chain, its clear callback run; the neighbour returned |
| Lists.Search | src/data/list.c:251-265 | the first node from the head that the comparison accepts, unless it stops the search before |
| Lists.Clear | src/data/list.c:153-157 | every node is cleared: from the node on to the tail, then back from it to the head |
| Lists.ClearOrderPermutes | src/data/list.c:153-157 | the order of clearing is a permutation of the chain |
| WsFrames.ParseStable | src/net/ws.c:480-549 | a complete frame is the same whatever follows it |
| WsFrames.DecodeAppend | src/net/ws.c:480-549 | a stream can be decoded in pieces |
| WsFrames.ReceiverUndoesFragmentation | src/net/api.c:1471-1605 | a receiver that follows RFC 6455, section 5.4 delivers any sequence of messages, fragmented in any way with control frames in between, exactly as sent |
| WsFrames.AcceptsFragmentation | src/net/api.c:1471-1605 | the same for a receiver that limits the size of messages in progress, for messages that keep the limit |
| WsFrames.AcceptIsReceive | src/net/api.c:1471-1605 | such a receiver delivers the beginning of what one without a limit does, and the same until it refuses |
| WsFrames.ReceivedIsSent | src/net/api.c:1471-1605 | conversely, what it delivers was sent: every legal sequence of frames is the fragmentation of some messages |
| WsEncode.ParseUndoesEncode | src/net/ws.c:183-549 | a frame built for any payload and key, masked or not, parses back to itself, and ends where it ended; unless the length has its first bit set |
| WsWire.ParsedWire | src/net/ws.c:480-549 | by the numbers of the bytes: which bytes begin with a frame, and its kind by byte 0 modulo 16, its end bit, its mask bit, its length in 7, 16 or 64 bits, and its payload byte by byte under the key |
| WsWire.EncodedWire | src/net/ws.c:183-330 | the same of what is written, which has no reserved bits and the shortest form of its length |
| WsEncode.CreateFrame | src/net/ws.c:183-232 | the buffer filled is the frame of the specification |
| WsEncode.MaskFrame | src/net/ws.c:421-450 | the frame with the key let in and the payload masked in place |
| WsEncode.XorPayload | src/net/ws.c:421-478 | the loop that masks and unmasks, and touches nothing else |
| WsEncode.DecodeUndoesEncode | src/net/ws.c:183-549 | any frames written one after the other are read back as they were |
| WsEncode.SentMessagesArrive | src/net/api.c:1471-1605 | from end to end, when nothing outside goes wrong and messages and frames fit the limit: while what has arrived is the beginning of the frames of some messages, in any fragments, under any keys, in any pieces, the session lives; once all has, and no complete frame waits in rx for the next read, its callback has been told exactly the messages sent |
| WsTheorems.HandshakeSafe | src/net/api.c:1145-1434 | in every run: no READ before the handshake is done, start and done never both, a peer done only after its whole answer was written, a client only after the bytes received began with a complete response that upgrades, with a key not refused |
| WsTheorems.DoneStays | src/net/api.c:1145-1434 | done is never cleared |
| WsTheorems.DeliversReassembly | src/net/api.c:1436-1605 | in every run: bytes received are the handshake, the frames consumed and rx; wsBuffer is empty when no message is in progress; what is delivered, dead or alive, is the reassembly of the stream up to the first frame refused, however it was cut |
| WsLiveness.DeliversExactly | src/net/api.c:1471-1605 | in every run in which callbacks return CONTINUE, masks can be set and sockets work: once the handshake is done, unless the beginning of a frame in rx is refused, the session lives as long as no frame received is; and when no complete frame waits in rx for the next read it lives exactly as long, and what it delivers is exactly the reassembly, up to the first frame refused |
| WsLiveness.ReadExact | src/net/api.c:1471-1605 | a read disconnects exactly when something is refused: the handshake, a frame, a bad length, or a frame or handshake that outgrows the limit before it is complete |
| WsLiveness.StopsOnlyRefused | src/net/api.c:1471-1891 | so over every such run a session that has stopped was given something to refuse |
| WsLiveness.DeliversWhatWasSent | src/net/api.c:1471-1605 | so messages sent in fragments keep the session alive, unless the beginning of a frame after them is refused, and are told as they were sent once no complete frame waits in rx |
| WsHandshake.PeerCompletes | src/net/api.c:1261-1343 | over every such run, in any number of reads and writes of any size: a peer that is sent an acceptable request is done exactly when it has read all of it and written all of its answer, and lives until then |
| WsHandshake.ClientCompletes | src/net/api.c:1345-1434 | a client that is sent an acceptable response after its request is done exactly when it has read all of it, and lives until then |
| WsHandshake.WritesFront | src/net/api.c:1765-1891 | a write event puts out the front of tx, as much as the socket takes |
| WsHandshake.FrameWaits | src/net/api.c:1800-1823 | a frame that is there before the answer of a peer is written stays unhandled when the handshake gets done |
| WsTheorems.ReadingSettles | src/net/api.c:1624-1674 | a read that goes on leaves no complete frame unhandled |
| WsTheorems.SortFollowsRules | src/net/api.c:1480-1605 | what the code does with one frame is what the rules of fragmentation say; it disconnects exactly when they are broken or the message in progress outgrows the limit |
| WsTheorems.StepGood | src/net/api.c:1471-1891 | every event of a session keeps the invariant |
| WsTheorems.RunGood | src/net/api.c:1471-1891 | so does every run |
| WsSession.Session.AnswerUpgrade | src/net/api.c:1145-1191 | the answer goes to tx, or nothing does (the new session is the specification's) |
| WsSession.Session.RequestUpgrade | src/net/api.c:1193-1259 | the request goes to tx and start is set (the new session is the specification's) |
| WsSession.Session.ServerHandshake | src/net/api.c:1261-1343 | a peer's handshake on the bytes received (the new session is the specification's) |
| WsSession.Session.ClientHandshake | src/net/api.c:1345-1434 | a client's handshake on the bytes received (the new session is the specification's) |
| WsSession.Session.ResetFragments | src/net/api.c:1436-1442 | no message in progress (the new session is the specification's) |
| WsSession.Session.HandleFrame | src/net/api.c:1480-1605 | one frame: delivered, added to the message in progress, or refused (the new session is the specification's) |
| WsSession.Session.HandleWS | src/net/api.c:1471-1605 | all complete frames, one after the other (the new session is the specification's) |
| WsSession.Session.ReadOnce | src/net/api.c:1624-1674 | one read from the socket (the new session is the specification's) |
| WsSession.Session.Read | src/net/api.c:1688-1702 | reads while there is more (the new session is the specification's) |
| WsSession.Session.Write | src/net/api.c:1765-1826 | one write, and what follows when tx is empty (the new session is the specification's) |
| WsSession.Session.WriteEvent | src/net/api.c:1828-1891 | the write event (the new session is the specification's) |
| WsSession.Session.ReadEvent | src/net/api.c:1893-1933 | the read event (the new session is the specification's) |
| ByteBuffers.ByteBuffer.Resize | src/data/buf.c:26-72 | the contents are kept, cut when the size is smaller |
| ByteBuffers.ByteBuffer.Reserve | src/data/buf.c:83-90 | room for n more bytes |
| ByteBuffers.ByteBuffer.Add | src/data/buf.c:199-207 | the bytes come at the end |
| ByteBuffers.ByteBuffer.Insert | src/data/buf.c:279-293 | the bytes come in at a place; the rest moves up |
| ByteBuffers.ByteBuffer.Remove | src/data/buf.c:295-317 | the bytes at a place go, no more than there are, the rest moves down, and their number is returned; cut at the end, the number of those left |
| ByteBuffers.ByteBuffer.Delete | src/data/buf.c:319-325 | the same and the memory is cut back |
| ByteBuffers.ByteBuffer.Advance | src/data/buf.c:327-331 | the bytes at the front go |
| ByteBuffers.ByteBuffer.Clear | src/data/buf.c:118-130 | empty |
| ByteBuffers.CutUndoesInsert | src/data/buf.c:279-317 | removing what was inserted gives back the bytes |
| ByteBuffers.AdvanceTwice | src/data/buf.c:327-331 | advancing twice is advancing by the sum |
| Sha256.Stream | src/crypt/sha256.c:56-101 | any sequence of updates gives the digest of FIPS 180-4, section 6.2 of the concatenation |
| ShaStream.WordIs | src/crypt/sha256.c:118-118 | a word is the number of its four bytes, the first one most significant, and is written as them |
| ShaStream.WordBytesNumber | src/crypt/sha256.c:95-99 | a word is written as the bytes of its number, most significant first |
| ShaStream.LengthBytesNumber | src/crypt/sha256.c:95-96 | the length field is the number of bits modulo 2^64, most significant byte first |
| ShaConstants.CubeRoots | src/crypt/sha256.c:44-54 | each constant is the first 32 bits of the fraction of the cube root of the prime in its place, as an inequality of integers |
| ShaConstants.SquareRoots | src/crypt/sha256.c:56-67 | each word of the start is the first 32 bits of the fraction of the square root of the prime in its place |
| Sha256Example.DigestOfAbc | src/crypt/sha256.c:56-101 | the functions of the standard give the digest that is published for abc |
| Sha256.Compute | src/crypt/sha256.c:140-151 | so for one update |
| Sha256.Context.Update | src/crypt/sha256.c:69-87 | the context comes to stand for the message with the data at its end |
| Sha256.Context.ProcessBlock | src/crypt/sha256.c:111-138 | sixteen words overwritten in place give the compression over the schedule of 64 |
| Sha256.Context.Final | src/crypt/sha256.c:89-101 | padding split at 56 bytes, and the length in bits |
| Sha256.SigmaMacros | src/crypt/sha256.c:29-34 | the shift macros are the functions of section 4.1.2 |
| Sha256.MajMacro | src/crypt/sha256.c:28-28 | the macro with or is the majority function |
| Sha256.ChMacro | src/crypt/sha256.c:27-27 | the macro with or is the choice function |
| Sha1.Stream | src/crypt/sha1.c:36-97 | the same for SHA-1 (sections 6.1 and 5.1.1), for updates below 2^32 - 63 bytes |
| Sha1.Context.Update | src/crypt/sha1.c:46-70 | the context comes to stand for the message with the data at its end |
| Sha1.CountAdds | src/crypt/sha1.c:46-70 | the two words of the count, with their carry, count the bits of the message modulo 2^64 |
| ShaConstants.Sha1Roots | src/crypt/sha1.c:30-34 | the constants are the square roots of 2, 3, 5 and 10 times 2^30, rounded down |
| ShaConstants.Sha1Start | src/crypt/sha1.c:36-44 | the start is bytes in equal steps, up from 0x01, down from 0xFE and down from 0xF0, each word least significant byte first |
| Sha1Example.DigestOfAbc | src/crypt/sha1.c:36-142 | the functions of the standard give the digest that is published for abc |
| Sha1.Transform | src/crypt/sha1.c:100-142 | eighty steps on sixteen words overwritten in place are the compression |
| Sha1.Context.Final | src/crypt/sha1.c:72-97 | a 0x80, zeros one at a time, and the count |
| Sha1.MajMacro | src/crypt/sha1.c:28-28 | the macro of the third twenty rounds is the majority function |
| Sha1.ChMacro | src/crypt/sha1.c:26-26 | the macro of the first twenty rounds is the choice function |
| ShaStream.FoldAppend | src/crypt/sha256.c:69-87 | hashing block by block can be split at any block |
| Arrays.XArray.Partitioning | src/data/array.c:454-467 | for every total preorder the loop ends, returns its start index, permutes the range and leaves a least element there, although the pivot's slot changes under swaps |
| Arrays.XArray.QuickSort | src/data/array.c:469-477 | the range is sorted, a permutation of what it was, and the rest is untouched |
| Arrays.XArray.Sort | src/data/array.c:479-483 | the used elements are sorted, a permutation of what they were |
| Arrays.XArray.SortBy | src/data/array.c:485-491 | by key or by size |
| Arrays.XArray.LinearSearch | src/data/array.c:512-524 | an index of the key exactly when it is there, else -1 |
| Arrays.XArray.SentinelSearch | src/data/array.c:526-549 | the same, and the array is as before |
| Arrays.XArray.DoubleSearch | src/data/array.c:551-569 | the same from both ends |
| Arrays.XArray.BinarySearch | src/data/array.c:571-590 | the same on an array sorted by key |
| Arrays.XArray.Realloc | src/data/array.c:192-228 | grows when full and shrinks when less than a quarter is used; the elements are the same |
| Arrays.XArray.CheckSpace | src/data/array.c:230-252 | room for one more unless the array is fixed and full |
| Arrays.XArray.Add | src/data/array.c:254-264 | the element comes last, or is refused |
| Arrays.XArray.Insert | src/data/array.c:398-412 | the element comes in at its index, the others move up in order; at an index past the last element it fails and leaves the element in an uncounted slot, if there is one |
| Arrays.XArray.Remove | src/data/array.c:340-355 | the element goes and is returned, the others move down in order; nothing at an index past the last element |
| Arrays.XArray.Swap | src/data/array.c:428-436 | two elements change places |
| ArrayModel.SwapsEqual | src/data/array.c:454-467 | a swap with an element equal to the pivot keeps the partition invariant |
| ArrayModel.SwapsLess | src/data/array.c:454-467 | a swap with a smaller element does too, with the pivot in its new slot |
| ArrayModel.PivotLeast | src/data/array.c:454-467 | when the loop ends the pivot is least |
| ArrayModel.LeastOfPermutation | src/data/array.c:469-477 | what is least in a range is least in every permutation of it |
| ArrayModel.SortedFrom | src/data/array.c:469-477 | a least element before a sorted range is a sorted range |
| ArrayModel.KeysOrdered | src/data/array.c:438-452 | comparing by key or size is a total preorder |
| ArrayModel.RemoveUndoesInsert | src/data/array.c:340-412 | removing what was inserted gives the array back |
| ArrayModel.InsertUndoesRemove | src/data/array.c:340-412 | inserting what was removed gives the array back |
| Base64.DecodeUndoesEncode | src/crypt/base64.c:85-251 | in both alphabets decoding undoes encoding on every non-empty buffer, with exact lengths |
| Base64.EncodesExactly | src/crypt/base64.c:85-197 | a text is the encoding of p exactly when it decodes to p and is canonical: padded in full and without spare bits set |
| Base64.UrlEncodesExactly | src/crypt/base64.c:199-251 | the same for the URL alphabet: exactly when it decodes to p and has no padding, no symbol of the other alphabet and no spare bits |
| Base64.EncodedLength | src/crypt/base64.c:85-251 | the length of an encoding |
| Base64.OutLengthIs | src/crypt/base64.c:139-154 | the length the decoder allocates is the length it fills |
| Base64.TableInverts | src/crypt/base64.c:11-83 | the decoding table inverts both alphabets |
| Base64Table.SymbolAt | src/crypt/base64.c:85-251 | symbol i of an encoding is the one that the tables of RFC 4648 have for bits 6i to 6i + 5 of the bytes, and = from their end on |
| Base64Table.SymbolIs | src/crypt/base64.c:11-83 | the symbols of both alphabets by number: letters, small letters, digits, and + and / or - and _ |
| Base64Table.TableValueIs | src/crypt/base64.c:12-83 | the decoding table has the number of each symbol |
| Base64.Encrypt | src/crypt/base64.c:85-123 | the loop over triples, the padding written over it and the trimming give the encoding |
| Base64.UrlEncrypt | src/crypt/base64.c:221-251 | the same in the URL alphabet without padding |
| Base64.Decrypt | src/crypt/base64.c:125-197 | every check, and the loop over groups: the decoded bytes, or null |
| Base64.UrlDecrypt | src/crypt/base64.c:199-219 | the same after mapping the URL alphabet |
| CryptModel.MultyUndone | src/crypt/crypt.c:490-549 | a chain of xor, reverse, base64, b64url and aes encrypts every non-empty input exactly when the keys it needs are given, and decrypting with the names reversed gives the input back |
| CryptModel.ChainUndone | src/crypt/crypt.c:490-549 | the same from any place in the chain, whatever random IVs were drawn |
| CryptModel.OneUndone | src/crypt/crypt.c:389-488 | the same for one cipher |
| CryptModel.XorUndone | src/crypt/crypt.c:32-46 | XOR with the same key twice gives the input |
| CryptModel.XorRepeats | src/crypt/crypt.c:32-46 | what is added to a byte is the byte of the key at its place, the key repeating |
| CryptModel.XorOfZeros | src/crypt/crypt.c:32-46 | zeros, as many as the key has bytes, give the key |
| CryptAes.OutputStarts | src/crypt/crypt.c:198-210 | the output of an AES cipher is the IV, the one given or a random one when its first byte is 0, and the padded blocks |
| CryptAes.OutputBlock | src/crypt/crypt.c:198-210 | each block after the IV is that of the cipher of FIPS 197, with 10, 12 or 14 rounds by the size of the key, on the padded text with the block before it added |
| CryptModel.ReverseUndone | src/crypt/crypt.c:126-138 | reversing twice gives the input |
| CryptModel.NamesReadBack | src/crypt/crypt.c:226-285 | the name of a cipher names it, except for crc32b, HS256 and MULTY |
| Crypt.XorCrypt | src/crypt/crypt.c:32-46 | the buffer filled is the input under the key |
| Crypt.Reverse | src/crypt/crypt.c:126-138 | the buffer filled is the input reversed |
| Crypt.AesCrypt | src/crypt/crypt.c:198-224 | a CBC context for one call, with the IV in front of the message |
| Crypt.EncryptSingle | src/crypt/crypt.c:389-450 | dispatch on the cipher |
| Crypt.DecryptSingle | src/crypt/crypt.c:452-488 | dispatch on the cipher |
| Crypt.Run | src/crypt/crypt.c:490-549 | the loop that hands each buffer on is the chain of the specification |

## Left out

General:
- Allocation succeeds everywhere except in the map, where each request may fail.
- Checks for null arguments, and memory pools; freeing is modelled where clear callbacks depend on it.
- Sizes are unbounded, except the table size of the map, the counts of SHA-1 and SHA-256, the four
  counter bytes of CTR and the length fields of frames.
- Sockets, TLS, worker processes, the system calls of epoll and poll beyond their results, files and tools.

JSON:
- The tree is a value, with objects as maps; the C code links heap nodes and stores members in the map above.
- The functions that build and read trees one field at a time, and coloured output.
- JsonWriter.DumpObj: the order of members is left open, since it is that of the map's slots; the tree is the same for every order.
- A text is a sequence of characters, one for each byte.
- JsonErrors.ErrorTold: where a failure without a code stands, not for every text whether it is one.

Hash map:
- The hash functions are one parameter: any function of the key.
- MapTable.UpdateCorrect: a slot that is not used, which the C code marks used and counts while its key stays unset.
- HashMap.XMap.Update: the same.
- The table size stays below 2^31, where the probe index of the C code is an int.

AES:
- Key expansion and the setting up of contexts: the results hold for every array of round keys.
- The second length check of XBC decryption, which can never fail.
- AesModes.NextCounts: the counter wraps within its last four bytes, as the C code does; RFC 5297 counts in all sixteen. The two differ only from block 2^31 on, since the top bit of those four bytes starts clear.

Events:
- EpollTheorems.RunFromFresh: for runs in which a callback removes its own event only by answering DISCONNECT, or by deleting it and answering RELOOP.
- The list of software timers, the destruction of an engine, and a nested call of the service.
- The removal of a descriptor by the kernel when it is closed.
- The hash index of both engines is a finite map, which the chained hash is proved to be.
- The poll build's wait for events on Windows, and its timers, which are those of a list.
- PollService.ServiceServes: as for the epoll build, callbacks use only events that exist; in the poll build that includes the rules of PollModel.PerformAgrees.
- PollModel.PerformAgrees: event data is not used after it is freed, and data being cleared is not added or deleted again.

Lists and hash:
- Rings made of lists, and the copying of clear callbacks from neighbour to neighbour: every node of a list has the same.
- Hashes.Hash.Insert: the pair itself is a value; only the nodes are heap objects.

WebSocket:
- The HTTP parser and the checks on headers: for each prefix of the input they complete, ask for more or fail.
- WsHandshake.PeerCompletes: every beginning of the bytes received is incomplete or an acceptable handshake for the HTTP parser, and an acceptable one stays so when more bytes follow.
- WsHandshake.ClientCompletes: the same, and nothing is received before the request is made.
- WsLiveness.DeliversExactly: the user's callback answers CONTINUE or DISCONNECT and may put bytes into tx; it does not change the session otherwise.
- Control frames in fragments or above 125 bytes, and reserved opcodes, which RFC 6455 tells a receiver to fail and the code dispatches.
- The rx, tx and wsBuffer of a session are sequences; the buffer operations on them are proved for themselves.
- WsEncode.ParseUndoesEncode: the check of a length against the address space can never fail with 64-bit sizes.
- Error and status callbacks, event masks beyond whether writing is armed, MDTP, and sessions that are neither.

SHA:
- Words left in the union when a context is reused.
- Sha1.Context.Update: updates of 2^32 - 63 bytes and more, for which the C code's comparison in 32 bits wraps around.
- Sha1.Stream: updates are below 2^32 - 63 bytes, where the number of blocks is counted in 32 bits.
- The hexadecimal sums.

Array:
- Arrays.XArray.Realloc: the quotient of two floats is compared as a product of integers.
- An array after XArray_Insert has left an element in an uncounted slot.
- Arrays.XArray.SortBy: keys and sizes are below 2^31, above which the C subtraction of ints overflows.
- ArrayModel.KeysOrdered: the same.
- The first inner loop of the partition, whose guard is false from the start, and bubble sort.

Codecs:
- CryptModel.MultyUndone: the list of names is given; splitting the text at the colons is not modelled.
- HEX, Caesar, the digests, HMAC, CRC-32 and RSA inside chains: whatever they return, the chain hands it on.
- Crypt.EncryptSingle: an AES key of a size other than 128, 192 or 256 bits, for which the context stays uninitialised.
- Crypt.AesCrypt: the same.
- Ring buffers, data buffers, borrowed memory in byte buffers, MD5, string and address helpers.
