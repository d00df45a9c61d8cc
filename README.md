# music-tagger, modelled in Dafny

music-tagger tidies a music collection. It reads each MP3 file's ID3v1 and
ID3v2 tags and its path. It fuses the readings into one record of title,
artist, album, year, track and genre, and cleans the strings. It removes
duplicate songs, makes every album agree on one year, sorts songs by track and
writes tags back. An older C program, `old_c_code/`, does part of this job:
it renames files, splits names into words, keeps a folder stack and reads
ID3 tags with `fread`.

This project models the core of both programs. Pure Python code becomes
datatypes, functions and lemmas. Code that updates objects or works in loops
becomes classes and methods with loop invariants. Each method is proved
against a specification function, and the properties the code promises are
proved about those functions.

| file | models |
|---|---|
| `wrappers.dfy` | `Option` and `Result`, used for Python's `None` and exceptions |
| `pystr.dfy` | the Python string operations the code relies on: `strip`, `split`, `join`, `replace`, `int()`, `str()`, `zfill` |
| `id3v2.dfy`, `id3v2_ids.dfy` | `ID3v2.py`: the integer decoders, the tag, extended and frame headers, the frame walk of `_Tag`, the getters, `read_tag_data` and `create_tag_string` |
| `id3v2parser.dfy`, `id3v2roundtrip.dfy` | `ID3v2Parser.py`: the second ID3v2 reader and writer, and what reading back a written tag gives |
| `id3v1.dfy` | `ID3v1Parser.py`: `strip_null_bytes`, `pack_null_bytes`, the reader and the writer |
| `trackdata.dfy` | `TrackData.py`: the record, `mint` and `clean_string` |
| `trackfile.dfy` | `TrackFile.py`: the fusion of the three readings |
| `trackcollection.dfy` | `TrackCollection.py`: the artist/album/song shelves and their passes |
| `filepathparser.dfy` | `FilePathParser.py`: album, year and title from a path |
| `config.dfy` | `Config.py`: the enum and value parsers and `_format_track_data` |
| `musictagger.dfy` | `music_tagger.py`: `clean_string`, `remove_common_words` and `clean_folder` |
| `ccommon.dfy` | `old_c_code/common.c`, on `char` arrays |
| `pathstack.dfy` | the folder stack of `old_c_code/renamer.c` and `old_c_code/old/renamer.c` |
| `splitlist.dfy`, `folderlist.dfy` | the linked lists of the C renamer: `split`, `splitAll`, `addList`, `readDirectory`, `removeOneFolder` and `removeCommonWords` |
| `csong.dfy`, `cid3v1.dfy`, `cid3v2.dfy` | the C tag readers of `old_c_code/id3v1.c` and `old_c_code/id3v2.c` |

`old_c_code/even_older_c_code/mp3.c` holds the same `containsCharacter`,
`charCopy`, `extractID3v1` and `extractID3v2` as `common.c`, `id3v1.c` and
`id3v2.c`, statement for statement. One model serves both copies.
`old_c_code/old/renamer.c` holds the same `push`, `pop`, `replaceCharacter`,
`removeDuplicateSpaces` and `fixCapitals` as the newer files. Each row below
cites the copy its member follows most closely. In the same way,
`strip_null_bytes` in `music_tagger.py` is the one of `ID3v1Parser.py`,
modelled by `ID3v1.StripNullBytes`.

Python 2 byte strings are Dafny strings with one character per byte. `Ord`
reads a character as a byte, modulo 256. Exceptions become `Failure` values
of `Result`. File reads become parameters that hold the file's bytes.

## Model

| member | source | states |
|---|---|---|
| CCommon.SignedChar | old_c_code/id3v2.c:30 | a byte read through a signed `char` lies in -128..127, is negative exactly when the byte is 128 or more, and agrees with the byte modulo 256 |
| CCommon.CLen | old_c_code/common.c:37 | `strlen` stops at the first NUL, with no NUL before it, or at the end of a buffer that has none |
| CCommon.ContainsCharacter | old_c_code/common.c:6-14 | `containsCharacter` returns -1 exactly when no index below len holds c; otherwise it returns the first index that does |
| CCommon.CharCopy | old_c_code/common.c:18-27 | `charCopy` writes the len bytes after the leading NULs of `in`, then a NUL at out[len], and leaves the rest of `out` alone; a negative len copies nothing |
| CCommon.ReplaceCharacter | old_c_code/common.c:31-53 | `replaceCharacter` keeps strlen and the bytes after the NUL, and turns the string into its replaced form for either mode |
| CCommon.ReplaceEvery | old_c_code/common.c:47-52 | mode 0 turns every c into a space and changes nothing else |
| CCommon.ReplaceDots | old_c_code/common.c:35-46 | mode 1 turns every '.' except the last into a space |
| CCommon.CountDots | old_c_code/common.c:37-39 | the first loop of mode 1 counts the '.'s of the string |
| CCommon.ReplaceLeadingDots | old_c_code/common.c:40-45 | the second loop of mode 1 blanks the first count - 1 '.'s and nothing else |
| CCommon.LastDotKept | old_c_code/common.c:35-46 | mode 1 keeps the last '.' and the text after it, and blanks every '.' before it |
| CCommon.RenameStepsMatchCleanString | old_c_code/renamer.c:359-361 | on a ".mp3" name, `renameFiles`' three `replaceCharacter` calls give what the separator step of Python's `clean_string` gives |
| CCommon.RemoveDuplicateSpaces | old_c_code/common.c:57-75 | `removeDuplicateSpaces` cuts each run of spaces that a non-space follows to one space and keeps a trailing run |
| CCommon.ShiftLeft | old_c_code/common.c:66-71 | the inner loop moves the rest of the string, NUL included, d places left over the extra spaces |
| CCommon.CollapsedKeepsNonSpaces | old_c_code/common.c:57-75 | collapsing keeps every non-space character, in order |
| CCommon.CollapsedSingleSpaced | old_c_code/common.c:57-75 | after collapsing, two spaces are adjacent only in a trailing run |
| CCommon.FixCapitals | old_c_code/common.c:79-95 | `fixCapitals` raises a-z that opens a word, lowers A-Z elsewhere, keeps strlen and leaves the bytes after the NUL alone |
| CCommon.CapitalisedJoin | old_c_code/common.c:79-95 | on words joined by single spaces, `fixCapitals` capitalises each word the way Python's `clean_string` does, without its and/at/of/or/the exceptions |
| CCommon.CapitalisedWord | TrackData.py:115 | on one word, `fixCapitals` gives the upper first letter and lowered rest of `clean_string` |
| CSong.Song.constructor | old_c_code/id3v2.c:36 | `calloc` of a song leaves every field NULL |
| CSong.Song.SetFields | old_c_code/id3v2.c:58-114 | the readers' field assignments set the tag fields and leave file and folder alone |
| CId3v1.TrimEnd | old_c_code/id3v1.c:33-34 | the trimmed length leaves only spaces after it and ends on a non-space |
| CId3v1.TrimEndUnique | old_c_code/id3v1.c:33-34 | that length is the only one with both properties |
| CId3v1.FieldText | old_c_code/id3v1.c:31-40 | a text field is left NULL exactly when its 30 bytes are all spaces; otherwise it holds no NUL and at most 30 bytes |
| CId3v1.TrackText | old_c_code/id3v1.c:74-78 | the track text is at most three decimal digits |
| CId3v1.ID3v1Fields | old_c_code/even_older_c_code/mp3.c:206-273 | the reader returns NULL exactly when the marker "TAG" is missing; it always sets year and genre (byte 127), sets the track exactly when byte 125 is NUL, and never sets max_tracks |
| CId3v1.TrimmedLength | old_c_code/id3v1.c:32-34 | the trimming loop computes the trimmed length |
| CId3v1.StrNCopy | old_c_code/id3v1.c:38-39 | `strncpy` plus the terminator gives the C string of the n bytes |
| CId3v1.ReadField | old_c_code/id3v1.c:30-40 | one text-field block reads the field's text |
| CId3v1.ExtractID3v1 | old_c_code/id3v1.c:3-85 | `extractID3v1` on the last 128 bytes returns NULL exactly when the tag is missing, and otherwise a fresh song holding the reader's fields |
| CId3v1.PackedFieldText | old_c_code/id3v1.c:30-40 | a field packed by the Python writer reads back as its text, "" for None |
| CId3v1.ReadsCreatedTag | old_c_code/id3v1.c:3-85 | the C reader reads a tag the Python ID3v1 writer made: every text field that fits comes back, the year as its decimal text, track and genre as written |
| CId3v1.ReadsCreatedYear | old_c_code/id3v1.c:66-71 | the C reader's year of a written tag is the year's decimal text, or "" for a missing or zero year |
| CId3v1.TrackAsWrittenOverflows | old_c_code/id3v1.c:76-77 | `sprintf("%d")` of track byte 200 through a signed char writes "-56" and its NUL, four bytes into a three-byte buffer |
| CId3v1.TrackTextAgrees | old_c_code/id3v1.c:76-77 | below 128 the signed and unsigned readings of the track byte agree |
| CId3v2.Stream.constructor | old_c_code/id3v2.c:14 | an opened file is read from its start |
| CId3v2.Stream.Read | old_c_code/id3v2.c:40 | `fread` returns the next n bytes, or all that are left, and moves past them |
| CId3v2.TagSize | old_c_code/id3v2.c:30 | the tag size is an unsigned 32-bit value |
| CId3v2.TagSizeSyncsafe | old_c_code/id3v2.c:30 | on syncsafe size bytes the C tag size agrees with the ID3v2 syncsafe decoder |
| CId3v2.TagSizeSignExtends | old_c_code/id3v2.c:30 | a size byte 0xFF is read as -1, so the tag size wraps to 2^32 - 1 where the syncsafe decoder refuses the bytes |
| CId3v2.TagSizeOfWritten | old_c_code/id3v2.c:30 | the C tag size of a header the Python writer made is the size written |
| CId3v2.FrameSize | old_c_code/id3v2.c:45 | the frame size is an unsigned 32-bit big-endian value |
| CId3v2.FrameText | old_c_code/id3v2.c:59 | the text stored for a frame holds no NUL, is no longer than the body, and is the body itself when the body holds no NUL |
| CId3v2.FrameTextOfWritten | old_c_code/id3v2.c:59 | a body written as encoding byte, text and NUL is stored as the text |
| CId3v2.FrameTextIsCopy | old_c_code/common.c:18-27 | `charCopy` of the body's bytes after its leading NULs stores exactly that text |
| CId3v2.TrackParts | old_c_code/id3v2.c:92-109 | a TRCK text without '/' is the track; with '/', track and max_tracks are the parts around the first '/' |
| CId3v2.Store | old_c_code/id3v2.c:55-115 | a frame other than TIT2, TPE1, TPE2, TALB, TYER, TRCK and TCON changes nothing; TPE1 and TPE2 set the artist only while it is NULL |
| CId3v2.ReadAfter | old_c_code/id3v2.c:42-53 | `bytes_read` grows by ten plus the body size, modulo 2^32 |
| CId3v2.HeaderRead | old_c_code/id3v2.c:21 | the header buffer holds the file's first ten bytes, or stale bytes after a short read |
| CId3v2.StoreFrame | old_c_code/id3v2.c:55-115 | the branch chain stores one frame as `Store` says |
| CId3v2.ExtractID3v2 | old_c_code/id3v2.c:3-120 | `extractID3v2` returns NULL exactly when the file lacks "ID3"; otherwise a fresh song holding every frame the loop reads, stored in file order |
| CId3v2.NextFrame | old_c_code/id3v2.c:37-116 | one pass of the loop reads the next frame and stores it, or stops on a short read or a size below 1 |
| CId3v2.StoredCons | old_c_code/id3v2.c:37-116 | the loop stores the first frame and then the rest |
| CId3v2.StoredAppend | old_c_code/id3v2.c:37-116 | storing two runs of frames is storing the first run, then the second |
| CId3v2.StoredKeepsArtist | old_c_code/id3v2.c:64-77 | once the artist is set, no later frame changes it |
| CId3v2.PaddingEndsFrames | old_c_code/id3v2.c:46-47 | a frame header whose size bytes are NUL, such as padding, ends the loop |
| CId3v2.FramesStep | old_c_code/id3v2.c:37-53 | a full header with a size of at least 1 and a body inside the file gives one frame, then the frames after its body |
| CId3v2.LaidFramesRead | old_c_code/id3v2.c:37-116 | frames laid out one after another inside the tag are read back in order |
| CId3v2.TextFramesLaid | ID3v2.py:638-650 | the Python writer's text frames are laid out as the C loop expects: ID, size of content plus two, body |
| CId3v2.StoredNewFrames | old_c_code/id3v2.c:55-115 | storing the bodies of the writer's new frames gives its title, artist, album, track and year |
| CId3v2.ReadsAssembledTag | old_c_code/id3v2.c:3-120 | the C reader reads back a tag the Python ID3v2 writer assembled: title, artist and album, and track and year where they are positive |
| CId3v2.ReadsAssembledFrames | old_c_code/id3v2.c:3-120 | on an assembled tag, the reader stores each written text frame's content |
| CId3v2.AssembledFramesRead | old_c_code/id3v2.c:37-116 | the loop reads the writer's frames from offset 10 and stops at its padding |
| CId3v2.AssembledHeader | old_c_code/id3v2.c:21-30 | an assembled tag starts with "ID3" and its size is the frames plus 500 bytes of padding |
| CId3v2.CharCopyOverReads | old_c_code/id3v2.c:58-59 | `charCopy(out, b, frame_size)` on a body that starts with one NUL asks for one byte past the body |
| CId3v2.TrackPartsAsWrittenKeepsSlash | old_c_code/id3v2.c:94-103 | as written, TRCK "3/12" gives max_tracks "/12", and track "" when the body has no leading NUL; the corrected split gives "3" and "12" |
| CId3v2.FrameTextAfterSelector | old_c_code/id3v2.c:59 | a text body after one encoding byte is stored as the text |
| PathStack.PathOf | old_c_code/renamer.c:247-257 | the pushed row is x, a '/', then y; or y alone when x is NULL |
| PathStack.PushedBounded | old_c_code/renamer.c:244-258 | a stack never holds more than STACKSIZE rows; push with room adds one row, push on a full stack leaves it as it is |
| PathStack.PopAfterPush | old_c_code/renamer.c:240-272 | last in, first out: pop after a push that had room returns the pushed path and the earlier stack |
| PathStack.PushAfterPop | old_c_code/renamer.c:240-272 | pushing back what pop returned restores the stack |
| PathStack.Stack.constructor | old_c_code/renamer.c:286 | a new stack is empty |
| PathStack.Stack.Push | old_c_code/renamer.c:240-259 | `push` stores the path in the row above the top and grows the stack by one, or reports an overflow on a full stack |
| PathStack.Stack.Pop | old_c_code/renamer.c:264-272 | `pop` returns NULL on an empty stack; otherwise it shrinks the stack by one and returns its top row |
| PathStack.PushAsWritten | old_c_code/old/renamer.c:146-163 | as written, `size++` runs on every call, also after the overflow message |
| PathStack.PushAsWrittenOverruns | old_c_code/old/renamer.c:146-163 | on a full stack, push as written sets size to STACKSIZE + 1, and the next push writes outside the rows |
| SplitList.Split.constructor | old_c_code/renamer.c:107-111 | a new node holds its string, the old head as next, and no prev |
| SplitList.Head | old_c_code/renamer.c:105 | a list is handled by its head, NULL exactly for the empty list |
| SplitList.AddSplit | old_c_code/renamer.c:105-116 | `addSplit` puts a fresh node in front, links the old head back to it, changes no string, and keeps the list well formed |
| SplitList.RemoveSplit | old_c_code/renamer.c:121-134 | `removeSplit` links the node's neighbours to each other and returns its next; the list without that node is well formed and holds the other strings in order; NULL gives NULL |
| SplitList.RewindSplit | old_c_code/renamer.c:139-146 | `rewindSplit` returns the head of the list from any of its nodes; NULL gives NULL |
| SplitList.SplitCopy | old_c_code/renamer.c:159-164 | `splitCopy` puts fresh copies of the strings from current to the end of its list onto the front of the other list, in the same order |
| SplitList.ChainDistinct | old_c_code/renamer.c:103-116 | the nodes of a list are pairwise distinct |
| SplitList.ChainNext | old_c_code/renamer.c:110 | a node's next is the node after it, or NULL for the last |
| SplitList.Tokens | old_c_code/renamer.c:168-201 | `split` adds only non-empty pieces with no separator in them, then a last piece that may be empty; without a separator the string is the one piece |
| SplitList.TokensRejoin | old_c_code/renamer.c:168-201 | when the string neither starts with a separator nor has two in a row, the pieces are exactly the parts between separators and joining them with the separator gives the string back |
| SplitList.NonEmptyAll | old_c_code/renamer.c:180-187 | dropping empty pieces changes nothing when none is empty |
| SplitList.DoneStep | old_c_code/renamer.c:178-188 | a separator closes the piece since the previous one, added only when non-empty |
| SplitList.DoneLast | old_c_code/renamer.c:194-198 | at the NUL, the pieces added and the final piece are the tokens |
| SplitList.Prepend | old_c_code/renamer.c:186 | each piece added becomes the head, so the list reads the pieces backwards |
| SplitList.ClosePiece | old_c_code/renamer.c:178-189 | a separator adds the piece before it when it is non-empty and restarts the scan after it |
| SplitList.SplitText | old_c_code/renamer.c:168-201 | `split` returns a well-formed list whose strings are the tokens in reverse order |
| SplitList.CopyPiece | old_c_code/old/renamer.c:199-202 | the copy loop copies exactly the piece between tail and head |
| SplitList.SplitIndexed | old_c_code/old/renamer.c:184-222 | the older, index-based `split` gives the same list as the newer one |
| FolderList.Entry.constructor | old_c_code/old/renamer.c:47-51 | a new list node holds the folder, the file and the old head |
| FolderList.First | old_c_code/renamer.c:45 | a list is handled by its head, NULL exactly for the empty list |
| FolderList.LinkedNext | old_c_code/renamer.c:56 | a node's next is the node after it, or NULL for the last |
| FolderList.NoRepeat | old_c_code/renamer.c:56 | no node occurs twice in a list |
| FolderList.AddList | old_c_code/old/renamer.c:45-54 | `addList` puts a fresh node with folder and file in front of the list, which stays well formed |
| FolderList.FolderRunUnique | old_c_code/renamer.c:342-343 | the run of nodes in the head's folder is determined by the list |
| FolderList.ReadDirectory | old_c_code/renamer.c:329-348 | `readDirectory` hands back the maximal run in the head's folder as its own list, cut after its last node, and moves the cursor to the node after the run |
| FolderList.CutAfter | old_c_code/renamer.c:345-347 | the cut after the run splits the list into two well-formed lists |
| FolderList.Session.constructor | old_c_code/old/renamer.c:11 | `CURRENT_FOLDER_SIZE` starts at -1 |
| FolderList.Grow | old_c_code/old/renamer.c:240-253 | the result array grows by one slot, keeps its earlier entries and gets the file last |
| FolderList.RemoveOneFolder | old_c_code/old/renamer.c:226-265 | `removeOneFolder` returns the files of the maximal run in the head's folder in list order, moves the cursor past them and sets `CURRENT_FOLDER_SIZE` to their number; NULL gives NULL |
| FolderList.RemoveCommonWords | old_c_code/old/renamer.c:275-281 | `removeCommonWords` warns below one string, returns at one, and starts matching only with more |
| FolderList.CountFiles | old_c_code/renamer.c:215-216 | the counting loop of `splitAll` counts the nodes of the list |
| FolderList.SplitInto | old_c_code/renamer.c:221-225 | one pass stores the split of the node's file and keeps the earlier entries |
| FolderList.SplitAll | old_c_code/renamer.c:206-230 | `splitAll` returns NULL for an empty list; otherwise one split list per node in list order, and the count in result_len |
| ID3v2.ReadSyncsafe32 | ID3v2.py:58-76 | `_read_32bit_syncsafe` succeeds exactly when no byte has its top bit set, raises otherwise, and reads a value below 2^28 |
| ID3v2.ReadPlain32 | ID3v2.py:79-92 | `_read_32bit_nonsyncsafe` reads a value below 2^32 |
| ID3v2.Read24 | ID3v2.py:95-107 | `_read_24bit_nonsyncsafe` reads a value below 2^24 |
| ID3v2.Read16 | ID3v2.py:110-121 | `_read_16bit_nonsyncsafe` reads a value below 2^16 |
| ID3v2.SyncsafeString | ID3v2.py:724-728 | the writer's size string is four bytes with every top bit clear |
| ID3v2.BigEndian32 | ID3v2.py:649-653 | the writer's frame-size string is four bytes |
| ID3v2.Base128Digits | ID3v2.py:724-727 | the four seven-bit digits the writer takes make up the size modulo 2^28 |
| ID3v2.SyncsafeRoundTrip | ID3v2.py:724-728 | reading back the writer's tag-size string gives the size modulo 2^28 |
| ID3v2.SyncsafeCanonical | ID3v2.py:58-76 | every syncsafe string the reader accepts is the writer's string for the value it reads |
| ID3v2.SevenBitDigits | ID3v2.py:73-76 | the four digits of a syncsafe value are the bytes it was read from |
| ID3v2.Base256Digits | ID3v2.py:649-652 | the four bytes the writer takes make up the frame size modulo 2^32 |
| ID3v2.BigEndianRoundTrip | ID3v2.py:649-653 | reading back the writer's frame-size string gives the size modulo 2^32 |
| ID3v2.ParseTagHeader | ID3v2.py:138-186 | `_TagHeader` raises without "ID3"; it succeeds exactly on a known version, a minor version other than 0xFF, only defined flags, a syncsafe size and a size other than 0, and then holds the decoded fields |
| ID3v2.WrittenHeader | ID3v2.py:730-733 | the writer's header is ten bytes |
| ID3v2.WrittenHeaderParses | ID3v2.py:730-733 | the writer's header reads back as version 2.3.0, no flags and the size written |
| ID3v2.TagHeaderCanonical | ID3v2.py:138-186 | a header the reader accepts is determined by its decoded fields |
| ID3v2.CalculateTagSize | ID3v2.py:576-594 | `calculate_tag_size` gives 0 without "ID3", fails exactly where `_TagHeader` raises, and otherwise gives ten plus the body size |
| ID3v2.HeaderOfFile | ID3v2.py:586-592 | the first ten bytes of the file decide the header, as the whole file does |
| ID3v2.ParseExtendedHeader | ID3v2.py:215-244 | `_TagExtendedHeader` raises for a version other than 3 and 4 and on undefined flags; version 3 has a 10-byte header and a big-endian size, version 4 a 6-byte header and the syncsafe size less 6 |
| ID3v2.AcceptIdSound | ID3v2.py:313-321 | a known ID is kept, an accepted ID is always one the version knows, and only ID3v2.3 renames ID3v2.2 IDs |
| ID3v2.ParseFrameHeader | ID3v2.py:264-331 | `_FrameHeader` raises for an unknown version; it succeeds exactly on an accepted ID and defined flags, with the version's header size, body size and body offset |
| ID3v2.ParseV22FrameHeader | ID3v2.py:276-281 | an ID3v2.2 header has a three-byte ID, a 24-bit size and no flags |
| ID3v2.ParseV23FrameHeader | ID3v2.py:282-294 | an ID3v2.3 header has a four-byte ID, a big-endian size and only the flags of mask 0xE0E0 |
| ID3v2.ParseV24FrameHeader | ID3v2.py:295-309 | an ID3v2.4 header has a four-byte ID, a syncsafe size and only the flags of mask 0x704F |
| ID3v2.FrameHeaderChecks | ID3v2.py:313-331 | the ID check comes before the flag check, and a header passing both keeps its fields |
| ID3v2.ReadAt | ID3v2.py:381 | `read(n)` returns the n bytes at the cursor, fewer at the end of the file |
| ID3v2.ExtendedOf | ID3v2.py:372-377 | without an extended header the frames start right after the ten header bytes |
| ID3v2.HeaderParserOf | ID3v2.py:264-331 | each version's frame-header decoder takes its header size and keeps the body offset it is given |
| ID3v2.FrameListBounds | ID3v2.py:380-393 | every frame read starts after the previous position and inside the tag |
| ID3v2.FrameListAdjacent | ID3v2.py:380-393 | frames are read one after another, each header right after the previous body |
| ID3v2.IndexByIdKeys | ID3v2.py:404-413 | the frame dictionary holds exactly the IDs read, each under its own ID |
| ID3v2.IndexByIdLastWins | ID3v2.py:404-413 | the frame kept under an ID is the last one read with that ID |
| ID3v2.FrameLoopStarts | ID3v2.py:379 | the loop starts with an empty dictionary |
| ID3v2.FrameLoopStep | ID3v2.py:380-393 | a pass that reads a header files the frame and moves past its body |
| ID3v2.FrameLoopFails | ID3v2.py:391 | an exception in a header ends the read with that exception |
| ID3v2.FrameLoopEnds | ID3v2.py:380-390 | the loop ends at the tag's end or at padding with the dictionary built so far |
| ID3v2.ReadFrames | ID3v2.py:379-393 | the frame loop of `_Tag` builds the dictionary of all frames read, or raises |
| ID3v2.ReadTag | ID3v2.py:360-393 | `_Tag` reads the header, the extended header and the frames |
| ID3v2.AsciiReplace | ID3v2.py:566 | `encode('ascii', 'replace')` keeps length and ASCII characters, and gives only ASCII |
| ID3v2.Latin1 | ID3v2.py:566 | `decode('iso-8859-1')` maps each byte to the code point of its value |
| ID3v2.FrameText | ID3v2.py:554-573 | `_read_frame_text` raises on an empty body, gives ASCII for selectors 0 to 3, fails only in a UTF decoder, and returns a body with another selector unchanged |
| ID3v2.FrameTextLatin1 | ID3v2.py:565-566 | a selector-0 body of ASCII text reads back as the text |
| ID3v2.FieldFrameId | ID3v2.py:438-444 | the getters know versions 2, 3 and 4, with three-byte IDs in version 2 and four-byte IDs otherwise |
| ID3v2.FrameBody | ID3v2.py:338-349 | `read_body` returns the frame's body bytes |
| ID3v2.FieldText | ID3v2.py:429-490 | `get_artist`, `get_album` and `get_title` give None for an unknown version or a missing frame, and otherwise the frame's text |
| ID3v2.GetTrack | ID3v2.py:492-512 | `get_track` is `mint` of the text before the first '/' |
| ID3v2.TrackOfCount | ID3v2.py:510-511 | a TRCK text "n/count" gives track n |
| ID3v2.GetYear | ID3v2.py:514-534 | `get_year` is `mint` of the first four characters |
| ID3v2.GetData | ID3v2.py:536-551 | `get_data` fills artist, album, title, track and year from their getters and leaves genre None |
| ID3v2.ReadTagData | ID3v2.py:597-621 | `read_tag_data` gives None exactly without "ID3"; otherwise the tag's fields cleaned non-aggressively, or the exception |
| ID3v2.TextFrame | ID3v2.py:638-661 | a text frame is ten header bytes, the selector, the content and a NUL |
| ID3v2.TextFrameFields | ID3v2.py:638-661 | a text frame reads back as its ID, the size of its content plus two, no flags, and the selector-0 body |
| ID3v2.NewFrameTexts | ID3v2.py:680-686 | the writer creates TIT2, TALB and TPE1 first, then at most TRCK and TYER, all with four-byte IDs the copy loop replaces |
| ID3v2.NewFrameNumbers | ID3v2.py:683-686 | TRCK is written exactly for a positive track and TYER for a positive year, each as the decimal number |
| ID3v2.TextFrames | ID3v2.py:680-686 | no pairs give no frames |
| ID3v2.NewFrames | ID3v2.py:680-682 | the new frames fail exactly when title, album or artist is None |
| ID3v2.FrameSize | ID3v2.py:699-701 | the copy loop's frame size is the plain or syncsafe reading of bytes 4 to 8, and raises on a short header |
| ID3v2.KeptAppend | ID3v2.py:709-714 | frames are copied whole and in order |
| ID3v2.KeptOne | ID3v2.py:709-714 | a replaced frame contributes nothing, any other frame its bytes |
| ID3v2.CopyLoopStep | ID3v2.py:696-715 | a pass of the copy loop appends the frame unless it is replaced |
| ID3v2.CopyLoopFails | ID3v2.py:701 | an exception in the size ends the copy with it |
| ID3v2.CopyLoopEnds | ID3v2.py:696-698 | the loop ends at the tag's end or at a NUL with the bytes kept |
| ID3v2.CopyFrames | ID3v2.py:693-715 | the copy loop appends every frame it walks over that is not replaced |
| ID3v2.ExistingTag | ID3v2.py:669-675 | without "ID3" there is no old tag; otherwise the old tag is the file's first header-plus-body bytes |
| ID3v2.TagWritten | ID3v2.py:680-735 | a written tag holds the header, the new frames, the copied frames and 500 bytes of padding |
| ID3v2.Assembled | ID3v2.py:721-735 | the assembled tag is the writer's header for the frames plus padding, then those bytes |
| ID3v2.AssembledHeader | ID3v2.py:721-735 | the writer's header parses as version 2.3.0 announcing exactly the body after it |
| ID3v2.ParseTagHeaderPrefix | ID3v2.py:145-186 | only the first ten bytes matter to the header |
| ID3v2.WriteTag | ID3v2.py:680-721 | the writer's body is the new frames, the copied frames and the padding |
| ID3v2.CreateTagString | ID3v2.py:624-735 | `create_tag_string` as written, with the copy loop reading frame sizes as syncsafe |
| ID3v2.CreateTagStringCorrected | ID3v2.py:624-735 | `create_tag_string` with the copy loop reading ID3v2.3.0 frame sizes as big-endian |
| ID3v2.SyncsafeMisreadsSize | ID3v2.py:701 | read as syncsafe, the big-endian size of a frame of 128 bytes or more is refused or read as a smaller number |
| ID3v2.OneFrameTagHeader | ID3v2.py:638-661 | in a one-frame tag, the frame header follows the tag header with the ID and then the big-endian size |
| ID3v2.SyncsafeCopyRejectsFrame | ID3v2.py:701 | as written, the copy loop raises on a tag with one 200-byte frame, whose size both ID3v2.3.0 and the reader take to be 200 |
| ID3v2.PlainCopyKeepsFrame | ID3v2.py:696-715 | with the ID3v2.3.0 size the same frame is copied whole, unless it is replaced |
| ID3v2.ReadAtPrefix | ID3v2.py:675 | reading inside the tag's bytes reads the file |
| ID3v2.V23ParserReadsHeaders | ID3v2.py:282-285 | the ID3v2.3 frame-header decoder takes the body size from the big-endian size field |
| ID3v2.PlainWalkStep | ID3v2.py:696-715 | one frame of the reader is one step of the corrected copy loop over the same bytes |
| ID3v2.PlainWalkFollowsReader | ID3v2.py:380-393 | with the ID3v2.3.0 size, the copy loop walks over exactly the frames the reader reads from the same bytes |
| ID3v2.FrameListOfPrefix | ID3v2.py:675 | while every frame header lies inside the tag, reading the tag's bytes gives the frames reading the file gives |
| ID3v2.CopyWalkMatchesV23Reader | ID3v2.py:693-715 | the corrected copy loop on an old ID3v2.3 tag walks over the frames the ID3v2.3 reader reads from the file |
| ID3v2Ids.V22IdLengths | ID3v2.py:7-12 | every ID3v2.2 frame ID has three characters |
| ID3v2Ids.V24IdLengths | ID3v2.py:14-25 | every ID3v2.3 and ID3v2.4 frame ID has four characters |
| ID3v2Ids.V23InV24 | ID3v2.py:24 | the ID3v2.4 list extends the ID3v2.3 list |
| ID3v2Ids.V22Renamable | ID3v2.py:27-39 | every ID3v2.2 frame ID has an ID3v2.3 name in the mapping |
| ID3v2Ids.RenamedIdsAreV23 | ID3v2.py:27-39 | the mapping renames ID3v2.2 IDs only, and only to ID3v2.3 IDs |
| ID3v2Parser.SizeOkay | ID3v2Parser.py:205-208 | the size test passes exactly when every size byte has its top bit clear, and raises IndexError only on a header shorter than ten bytes |
| ID3v2Parser.AssertHeaderValid | ID3v2Parser.py:184-213 | `assert_header_valid` passes exactly on a version up to 4 with minor not 0xFF, no flag but 0x40 and a syncsafe size; a full header failing that raises the "corrupted tag" exception |
| ID3v2Parser.WrittenHeaderValid | ID3v2Parser.py:176-179 | the header the writer builds passes the check |
| ID3v2Parser.CalculateTagSize | ID3v2Parser.py:216-232 | `calculate_tag_size` fails exactly on a short header, and on a valid one reads the syncsafe size |
| ID3v2Parser.WrittenTagSize | ID3v2Parser.py:168-179 | the size the writer puts in its header reads back modulo 2^28 |
| ID3v2Parser.CalculateFrameSize | ID3v2Parser.py:235-250 | `calculate_frame_size` fails exactly on a short header and otherwise reads bytes 4 to 7 big-endian |
| ID3v2Parser.CalculateFrameSizeIsPlain | ID3v2Parser.py:235-250 | it is the ID3v2.3.0 frame size, the one the corrected ID3v2 writer uses |
| ID3v2Parser.TextFrameSize | ID3v2Parser.py:82-105 | the size of a frame the writer builds reads back as its content's length plus two |
| ID3v2Parser.BodyText | ID3v2Parser.py:54 | as written the text is the body without its first byte; cut at a NUL it holds no NUL, and is the same when there is none |
| ID3v2Parser.Store | ID3v2Parser.py:53-62 | storing a frame never sets the genre, and a frame other than the five leaves the record unchanged |
| ID3v2Parser.StoreFields | ID3v2Parser.py:53-62 | TALB, TIT2 and TPE1 set album, title and artist to the text, TRCK the `mint` of the text before '/', TYER the `mint` of four bytes |
| ID3v2Parser.ParsedRecord | ID3v2Parser.py:19-65 | without "ID3" all fields are None; with it an invalid header raises, and a record read never has a genre |
| ID3v2Parser.StoreAllKeepsGenre | ID3v2Parser.py:53-62 | no frame read sets the genre |
| ID3v2Parser.StoreAllSnoc | ID3v2Parser.py:33-62 | each frame read is stored on top of the record so far |
| ID3v2Parser.StoreAllIgnores | ID3v2Parser.py:53-62 | a tag of other frames only leaves the record as it was |
| ID3v2Parser.StoreAllAppend | ID3v2Parser.py:33-62 | storing two runs of frames is storing the second on the result of the first |
| ID3v2Parser.StoreInto | ID3v2Parser.py:53-62 | the in-place if/elif chain leaves the record `Store` gives |
| ID3v2Parser.FieldFramesStep | ID3v2Parser.py:33-51 | a pass of the loop reads a frame's ID and body and moves on by ten plus its size |
| ID3v2Parser.FieldLoopStarts | ID3v2Parser.py:32 | the loop starts at byte 10 with nothing read |
| ID3v2Parser.FieldLoopStep | ID3v2Parser.py:33-62 | a pass keeps the loop invariant: the record holds the frames read so far |
| ID3v2Parser.FieldWalkStep | ID3v2Parser.py:35-51 | the frame read moves from the frames to come to those read |
| ID3v2Parser.FieldLoopStops | ID3v2Parser.py:33-48 | at the tag's end or at a NUL the record is the final one |
| ID3v2Parser.FieldLoopFails | ID3v2Parser.py:36-50 | a short frame header raises, and the whole read raises with that `IndexError` |
| ID3v2Parser.ReadFrameFields | ID3v2Parser.py:31-62 | the loop fails exactly when the frames read raise, with the same exception, and otherwise leaves in the object the record of the frames read |
| ID3v2Parser.ReadTagData | ID3v2Parser.py:6-65 | `read_id3v2_tag_data` fails exactly when the record read raises, with the same exception, and otherwise returns a fresh object holding that record, cleaned |
| ID3v2Parser.CheckedTag | ID3v2Parser.py:113-121 | without "ID3" there is no old tag; with it the check passes exactly on a valid header, and the old tag is the file's first size-plus-ten bytes |
| ID3v2Parser.CreateTagString | ID3v2Parser.py:68-181 | `create_id3v2_tag_string` fails on an invalid header, and otherwise is the ID3v2 writer with the ID3v2.3.0 frame size in the copy loop |
| ID3v2Parser.WrittenTagLayout | ID3v2Parser.py:126-181 | the output is the header, the new frames, the unreplaced old frames whole and in order, and 500 bytes of padding |
| ID3v2Parser.KeptAround | ID3v2Parser.py:155-160 | the copied bytes split around any one frame of the walk |
| ID3v2Parser.FieldFramesStops | ID3v2Parser.py:37-48 | a NUL where a frame header would start ends the loop |
| ID3v2Parser.WrittenFrameHeader | ID3v2Parser.py:92-101 | a frame header is the ID and six bytes |
| ID3v2Parser.WrittenFrameHeaderFields | ID3v2Parser.py:92-101 | a frame header reads back its ID and its size |
| ID3v2Parser.WrittenFrameReads | ID3v2Parser.py:36-62 | where a built frame lies in the file, the loop's two reads see its header and its body |
| ID3v2Parser.FieldFramesWrittenFrame | ID3v2Parser.py:82-105 | a frame the writer built is read back as its ID and the body the writer built |
| ID3v2RoundTrip.IntToStringPlain | ID3v2Parser.py:130 | `str()` of an int holds no NUL and no slash |
| ID3v2RoundTrip.WrittenBodyText | ID3v2Parser.py:54 | the text read from a body the writer built keeps the trailing NUL as written, and is the content when cut at the NUL |
| ID3v2RoundTrip.TrackBodyLost | ID3v2Parser.py:59-60 | as written, a TRCK body the writer built for any text without a slash sets the track to None |
| ID3v2RoundTrip.TrackTextKeepsNul | ID3v2Parser.py:60 | the text before the first slash of such a body is the text and its NUL |
| ID3v2RoundTrip.TrackBodyReadBack | ID3v2Parser.py:59-60 | cut at the NUL, the same body sets the track to the number written |
| ID3v2RoundTrip.StoreAllKeepsTrack | ID3v2Parser.py:53-62 | frames other than TRCK leave the track as it is |
| ID3v2RoundTrip.TrackFrameRead | ID3v2Parser.py:31-62 | a read whose only TRCK frame is one the writer built succeeds, setting the track from that frame |
| ID3v2RoundTrip.WrittenTrackLost | ID3v2Parser.py:59-60 | as written, the track the writer stores reads back as None |
| ID3v2RoundTrip.WrittenTrackReadBack | ID3v2Parser.py:59-60 | corrected, the track the writer stores reads back as the same number |
| ID3v2RoundTrip.TextBodyStored | ID3v2Parser.py:53-58 | a title, album or artist body the writer built sets the field to the text plus NUL as written, to the text when cut |
| ID3v1.RemoveNul | ID3v1Parser.py:13 | `replace("\0", "")` leaves no NUL and changes a string without NULs in no way |
| ID3v1.RemoveNulAppend | ID3v1Parser.py:13 | removing NULs distributes over concatenation |
| ID3v1.StripLacks | ID3v1Parser.py:13 | `strip()` adds no byte the input lacks |
| ID3v1.StripOfStripped | ID3v1Parser.py:13 | a string with no whitespace at either end is its own `strip()` |
| ID3v1.StripNullBytes | ID3v1Parser.py:4-13 | `strip_null_bytes` leaves no NUL and no whitespace at either end |
| ID3v1.PackNullBytes | ID3v1Parser.py:16-36 | `pack_null_bytes` gives exactly `length` bytes ending in NUL: the string cut to length - 1 bytes, or padded; None or "" gives only NULs |
| ID3v1.PackStripRoundTrip | ID3v1Parser.py:16-36 | a field of at most 29 bytes with nothing to strip, packed and then stripped, comes back as it was |
| ID3v1.PackedFieldNuls | ID3v1Parser.py:13 | removing the NULs of such a packed field leaves the field |
| ID3v1.PackedField | ID3v1Parser.py:29-33 | a field of at most 29 bytes is packed as itself followed by NULs |
| ID3v1.BaseFields | ID3v1Parser.py:62-77 | a trailer with the marker always sets title, album and artist |
| ID3v1.WithExtension | ID3v1Parser.py:79-82 | the "TAG+" block only appends to title, artist and album, each keeping what it had |
| ID3v1.RawFieldsMarker | ID3v1Parser.py:62-82 | without "TAG" every field stays None; with it the genre is byte 127, title, album and artist are set, and the track is byte 126 exactly for ID3v1.1 |
| ID3v1.ReadTagData | ID3v1Parser.py:39-85 | `read_id3v1_tag_data` fails exactly where the seek fails, with that `IOError`, and otherwise fills a fresh object with the cleaned fields of the trailer |
| ID3v1.AssignFields | ID3v1Parser.py:62-82 | the assignments of a marked trailer leave the raw fields in the object |
| ID3v1.AppendExtension | ID3v1Parser.py:80-82 | the three `+=` leave the record with the "TAG+" fields appended |
| ID3v1.AssignBase | ID3v1Parser.py:64-77 | the ID3v1.0/ID3v1.1 assignments leave the base fields in the object |
| ID3v1.CreateTagString | ID3v1Parser.py:88-111 | `create_id3v1_tag_string` raises exactly when track or genre is not 0 to 255, and is otherwise 124 bytes plus the year string |
| ID3v1.CreatedTagLayout | ID3v1Parser.py:101-110 | a written tag is 128 bytes: marker, three packed 30-byte fields, year, 28 NULs, a NUL, track and genre |
| ID3v1.YearReadBack | ID3v1Parser.py:68-69 | the year of a written tag reads back as the year, or None for a missing or zero year |
| ID3v1.CreatedTagReadsBack | ID3v1Parser.py:62-77 | reading a written tag gives back every text field that fits ("" for None), the track when it is 1 to 255, the year and the genre |
| ID3v1.ReadRecordOfAppended | ID3v1Parser.py:55-59 | the reader of a file ending in a written tag sees that tag and the 227 bytes before it |
| TrackData.MintOfIntToString | TrackData.py:63-75 | `mint` reads back every number `str()` renders |
| TrackData.MintRejectsNul | TrackData.py:72-75 | a NUL byte anywhere makes `int()` raise, so `mint` gives None |
| TrackData.DotInMp3Name | TrackData.py:97-99 | a name ending in ".mp3" has a '.' to keep |
| TrackData.DotsReplaced | TrackData.py:97-101 | the '.' step keeps the length of the name |
| TrackData.DotsReplacedKeepsExtensionDot | TrackData.py:97-101 | a ".mp3" name keeps exactly one '.', that of its extension; any other name keeps none |
| TrackData.Capitalise | TrackData.py:115 | capitalising a word keeps its length |
| TrackData.TitleCased | TrackData.py:112-115 | the title-case loop rewrites each word in place, capitalising the first and every non-exception |
| TrackData.TitleCasedAreWords | TrackData.py:113-115 | title-casing keeps words non-empty and free of whitespace |
| TrackData.CleanedNormalised | TrackData.py:109-127 | a cleaned string is words joined by single spaces: no leading, trailing or double space |
| TrackData.SplitAll | TrackData.py:109 | `split()` only takes bytes from its input |
| TrackData.JoinAll | TrackData.py:118 | `join` only takes bytes from the separator and the words |
| TrackData.BracketsReplacedAll | TrackData.py:125-126 | replacing the bracket groups with spaces adds no other byte |
| TrackData.TitleCasedAll | TrackData.py:113-115 | title-casing keeps every byte property closed under upper-casing |
| TrackData.CleanedAll | TrackData.py:106-127 | the steps after the separators add no byte outside such a property |
| TrackData.CleanedHasNoSeparators | TrackData.py:96-103 | no '-' or '_' survives cleaning, nor a '.' unless the name ends in ".mp3" |
| TrackData.CleanedTitleCase | TrackData.py:105-118 | without aggressive cleaning, the first word starts with no lower-case letter, a later one only when it is an exception word, a later exception word stays all lower-case, and no letter after a word's first is upper-case |
| TrackData.LowerTitleWord | TrackData.py:113-115 | title-casing a lower-case word changes nothing that lower-casing does not undo |
| TrackData.TitleWordTail | TrackData.py:115 | title-casing a word changes at most its first letter |
| TrackData.TitleCaseWords | TrackData.py:112-115 | the in-place loop over the word list gives the title-cased words |
| TrackData.CleanString | TrackData.py:78-129 | `clean_string` gives the cleaned string: single-spaced words with no '-' or '_' |
| TrackData.CleanField | TrackData.py:58-60 | a field is cleaned exactly when it is a non-empty string, and None otherwise |
| TrackData.CleanRecord | TrackData.py:48-60 | cleaning never touches track, year or genre, and leaves each text field set exactly when it was a non-empty string |
| TrackData.TrackData.constructor | TrackData.py:17-22 | a new TrackData has every field None |
| TrackData.TrackData.Clean | TrackData.py:48-60 | `clean` rewrites title, album and artist in place, and nothing else |
| TrackFile.FinaliseStr | TrackFile.py:78-119 | `finalise_str` raises exactly when no candidate is a non-empty string, and otherwise returns a non-empty string |
| TrackFile.FinaliseStrChoosesCandidate | TrackFile.py:104-116 | the result is one of the candidates given, v1 only when fp and v2 are both missing |
| TrackFile.FinaliseStrFavoursFp | TrackFile.py:107-112 | fp confirmed by a tag wins; a given fp loses only to two tags agreeing with each other, and then v2 is taken |
| TrackFile.FinaliseStrAloneIgnoresDistance | TrackFile.py:97-102 | with at most one candidate the distance plays no part |
| TrackFile.FinaliseInt | TrackFile.py:121-144 | `finalise_int` gives 0 exactly when no source is non-zero |
| TrackFile.FinaliseIntMajority | TrackFile.py:132-135 | any two sources agreeing on a non-zero value outvote the third |
| TrackFile.FinaliseIntPriority | TrackFile.py:132-141 | without agreement the priority is fp, v2, v1 |
| TrackFile.FinaliseIntZeroIsNone | TrackFile.py:132-144 | 0 and None are the same to `finalise_int` |
| TrackFile.Fused | TrackFile.py:146-152 | fusing fails exactly when title, album or artist has no candidate, and otherwise gives a complete record whose genre is voted without fp |
| TrackFile.FusedOfAgreement | TrackFile.py:146-152 | three identical readings fuse to that reading |
| TrackFile.DefaultNameNormalised | TrackFile.py:38 | the derived name is normalised, with no '/', '-' or '_' |
| TrackFile.InitAsWritten | TrackFile.py:34-40 | as written, the constructor succeeds exactly with a non-empty path and an explicit cleaned name, because the bare `clean_string` is undefined |
| TrackFile.InitAsWrittenNeedsName | TrackFile.py:37-38 | as written, leaving out the cleaned name always raises |
| TrackFile.DeriveName | TrackFile.py:38 | the name derived is the last path component, aggressively cleaned |
| TrackFile.TrackFile.constructor | TrackFile.py:18-40 | a new TrackFile holds the path and the name and nothing loaded or finalised |
| TrackFile.TrackFile.Create | TrackFile.py:18-40 | `__init__` raises exactly on the empty path; otherwise the name is the one given or, when empty, the derived one |
| TrackFile.TrackFile.LoadAllData | TrackFile.py:54-62 | `fp` is `read_file_path_data` of the path and cleaned name, `v1` and `v2` are the ID3v1 and ID3v2 readers' records of the file; a reader that raises ends the call with its exception and leaves the readings before it; nothing else changes |
| TrackFile.TrackFile.FinaliseData | TrackFile.py:65-154 | the final record is the fusion of the three readings and the file is finalised; on failure nothing changes |
| TrackCollection.TitlesMembers | TrackCollection.py:104-109 | a title is among a bucket's titles exactly when some song of it carries the title |
| TrackCollection.Tracker | TrackCollection.py:102-121 | `duplicate_tracker` holds exactly the titles seen, each under its own title |
| TrackCollection.TrackerHoldsFirst | TrackCollection.py:109-121 | `duplicate_tracker` holds, for each title, the first song that carried it |
| TrackCollection.RemoveFirst | TrackCollection.py:126 | `list.remove(x)` takes one copy of x out when x is present and leaves the list alone otherwise |
| TrackCollection.MarkedWithin | TrackCollection.py:104-119 | the marked songs are songs of the bucket, never more copies than it holds |
| TrackCollection.MarkedOrKept | TrackCollection.py:109-121 | every song is either marked or kept as the first of its title |
| TrackCollection.RemovedAllCount | TrackCollection.py:125-127 | removing a sub-multiset one element at a time removes exactly it, so the bucket shrinks by its size |
| TrackCollection.RemoveFirstDistinct | TrackCollection.py:126 | in a list holding each TrackFile once, `remove(x)` drops exactly x |
| TrackCollection.RemovedAllDistinct | TrackCollection.py:125-126 | in such a list, removing the marked songs one at a time is filtering them out |
| TrackCollection.WithoutMarked | TrackCollection.py:102-126 | filtering out the marked songs leaves the first song of each title |
| TrackCollection.DedupKeepsFirstSeen | TrackCollection.py:100-127 | `remove_duplicates` leaves, in each bucket holding each TrackFile once, the first song of each title in order |
| TrackCollection.FirstSeenUnique | TrackCollection.py:100-127 | the songs kept carry every title of the bucket, each once |
| TrackCollection.UniqueUnmarked | TrackCollection.py:109-121 | a bucket of distinct titles has nothing marked |
| TrackCollection.DedupIdempotent | TrackCollection.py:100-127 | a second pass over the songs kept marks nothing |
| TrackCollection.ClashesAreDiffering | TrackCollection.py:109-118 | a warning pairs a duplicate with the first song of its title, only when they differ in track or year |
| TrackCollection.MarkDuplicates | TrackCollection.py:102-124 | the marking loop gives the marked songs and the warnings |
| TrackCollection.RemoveEach | TrackCollection.py:125-126 | the removal loop removes each marked song in turn |
| TrackCollection.RemoveDuplicatesIn | TrackCollection.py:102-127 | on one bucket, the songs left, how many went (what `file_count` drops by) and the warnings; with each TrackFile once, the first song of each title is left |
| TrackCollection.FirstSeenNonEmpty | TrackCollection.py:104-121 | a non-empty bucket keeps its first song |
| TrackCollection.DedupShrinks | TrackCollection.py:125-127 | a bucket only loses its marked songs, and never becomes empty |
| TrackCollection.VotesCount | TrackCollection.py:151-156 | a year's vote is the number of songs carrying it, and only years some song carries get one |
| TrackCollection.WithYear | TrackCollection.py:176-177 | restamping keeps every song and changes only its year |
| TrackCollection.WinnerExists | TrackCollection.py:164-171 | a bucket with two or more years always has a non-zero year with the most votes among the non-zero |
| TrackCollection.VotesOfWithYear | TrackCollection.py:151-156 | a bucket whose songs share one year gets that one vote |
| TrackCollection.StandardiseIdempotent | TrackCollection.py:147-177 | a second standardisation leaves a restamped bucket as it is |
| TrackCollection.StandardiseYears | TrackCollection.py:151-177 | the vote restamps nothing with at most one year; otherwise every song gets a non-zero year of most votes among the non-zero |
| TrackCollection.InsertPermutes | TrackCollection.py:188 | inserting a song adds exactly it |
| TrackCollection.InsertOrders | TrackCollection.py:188 | inserting into a bucket ordered by track keeps it ordered |
| TrackCollection.SortedByTrackSorts | TrackCollection.py:188 | the sorted bucket is a permutation of the bucket, in non-decreasing track order (its stability is `SortedByTrackStable`) |
| TrackCollection.InsertWithTrack | TrackCollection.py:188 | inserting a song puts it in front of the songs of its own track and leaves the songs of every other track as they were |
| TrackCollection.SortedByTrackStable | TrackCollection.py:188 | the sort is stable, as `list.sort` is: the songs of each track keep their relative order |
| TrackCollection.SortedByTrackOrdered | TrackCollection.py:188 | a bucket already in track order is left exactly as it is |
| TrackCollection.AlbumDirName | TrackCollection.py:205-208 | the album directory is the album alone for year 0, and "[year] album" otherwise |
| TrackCollection.SongFileName | TrackCollection.py:211 | a song's file name ends in its title and ".mp3" |
| TrackCollection.SongFileNameTrack | TrackCollection.py:211 | a track of 0 to 99 opens the file name as two digits that read back as the track |
| TrackCollection.SongPath | TrackCollection.py:201-212 | a song's new path lies under the root and its artist, and ends in its title and ".mp3" |
| TrackCollection.AddedBuckets | TrackCollection.py:72-74 | adding a song touches one bucket, appending the song to it |
| TrackCollection.TotalUpdate | TrackCollection.py:127 | replacing a bucket changes the number of songs filed by the change in its size |
| TrackCollection.FiledUpdate | TrackCollection.py:72-74 | a non-empty bucket of the same artist and album keeps the collection filed |
| TrackCollection.ProcessedStart | TrackCollection.py:100-101 | before the loops every bucket is still to do |
| TrackCollection.ProcessedStep | TrackCollection.py:100-101 | processing one more bucket keeps the others as they were |
| TrackCollection.DedupTwice | TrackCollection.py:100-127 | with each TrackFile filed once, a second pass over a bucket changes nothing |
| TrackCollection.TrackCollection.constructor | TrackCollection.py:19-35 | a new collection is empty and counts no files |
| TrackCollection.TrackCollection.Add | TrackCollection.py:55-75 | `add` refuses a track that is not finalised and changes nothing; otherwise it appends the song to its bucket and counts one more file |
| TrackCollection.TrackCollection.Replace | TrackCollection.py:125-127 | one bucket is replaced and `file_count` keeps counting the songs filed |
| TrackCollection.TrackCollection.RemoveDuplicates | TrackCollection.py:78-127 | every bucket loses its marked songs, `file_count` keeps counting the songs filed, and the warnings are exactly those of every bucket, bucket after bucket, each bucket visited once |
| TrackCollection.TrackCollection.StandardiseAlbumTracks | TrackCollection.py:130-177 | every bucket with more than one year is restamped with a winning year, the others untouched; the buckets reported are exactly those with more than one year, each once |
| TrackCollection.EnumeratesStep | TrackCollection.py:100-101 | visiting one more unvisited (artist, album) bucket keeps the visit order free of repeats and within the collection |
| TrackCollection.EnumeratesAll | TrackCollection.py:100-101 | once no bucket is left to visit, every bucket of the collection has been visited |
| TrackCollection.GatheredStep | TrackCollection.py:100-127 | after one more bucket the warnings gathered are those of every bucket visited, in visit order |
| TrackCollection.ClashesOfStep | TrackCollection.py:109-118 | the warnings of a visit order grow by exactly the warnings of the bucket visited last |
| TrackCollection.MixedAmongStep | TrackCollection.py:147-177 | the bucket visited next is added to the report exactly when it holds more than one year, after the buckets reported before it |
| TrackCollection.MixedAmongExactly | TrackCollection.py:147-177 | a bucket is reported exactly when it was visited and holds more than one year, and no bucket is reported twice |
| TrackCollection.TrackCollection.SortSongsByTrack | TrackCollection.py:180-188 | every bucket becomes its stable sort by track, and the file count stays |
| TrackCollection.SongOf | TrackCollection.py:72-74 | a finalised track is filed with its non-empty title, album and artist |
| TrackCollection.RestampKeepsFiling | TrackCollection.py:176-177 | restamping keeps every song in its own bucket |
| TrackCollection.RemoveDuplicatesTwice | TrackCollection.py:78-127 | with no TrackFile filed twice in a bucket, running `remove_duplicates` again changes nothing |
| FilePathParser.AlbumAndYear | FilePathParser.py:31-35 | a folder name opened by "[yyyy] " gives the rest as album and the four digits as a year of at most 9999; any other name is the album with no year |
| FilePathParser.TitleOf | FilePathParser.py:42-44 | the title holds no '.' |
| FilePathParser.ReadFilePathData | FilePathParser.py:7-45 | raises exactly when the cleaned name has no word; artist, album and year come from the two folders above the file only when the path has three parts; a leading all-digit word is the track; the title holds no '.' and the genre stays None |
| FilePathParser.FolderFields | FilePathParser.py:26-36 | with three or more path parts, the artist is the cleaned third-last part and album and year come from the cleaned second-last; with fewer, the folder fields stay None |
| TrackCollection.AlbumAndYearOfTagged | FilePathParser.py:31-33 | the album directory the collection writes for a four-digit year gives the album and year back |
| FilePathParser.ExtendedWords | FilePathParser.py:42 | a normalised title with the extension appended splits into its words, the last carrying the extension |
| TrackCollection.SongFileNameReadsBack | FilePathParser.py:39-44 | the file name the collection writes for a song reads back as its track and title, for a track of 0 to 99 and a normalised title without '.' |
| FilePathParser.SongFileNameDigits | FilePathParser.py:40-41 | the zero-padded track opens the name as two digits reading back as the track, then a space |
| Config.ContinueBehaviourName | Config.py:17-21 | the member names are "ignore", "stop" and "parse" |
| Config.ContinueBehaviourFromString | Config.py:24-42 | a string outside a non-empty `valid_values` is refused first; a result is always the member of that name |
| Config.ContinueBehaviourRoundTrip | Config.py:24-42 | every member parses back from its name when its name is allowed |
| Config.GenericStateFromString | Config.py:51-72 | a state is returned only when its override is truthy and equal to the string, in the order no, maybe, yes; otherwise it raises |
| Config.GenericStateRoundTrip | Config.py:51-72 | with three distinct truthy spellings each parses to its own state |
| Config.AlbumVariantStrategyFromString | Config.py:81-99 | parses exactly "keep-both", "keep-largest" and "merge", each to the strategy of that name |
| Config.AlbumVariantStrategyRoundTrip | Config.py:81-99 | every strategy parses back from its spelling |
| Config.AlbumYearStrategyFromString | Config.py:108-126 | parses exactly "majority", "latest" and "ignore", each to the strategy of that name |
| Config.AlbumYearStrategyRoundTrip | Config.py:108-126 | every strategy parses back from its spelling |
| Config.IntFromString | Config.py:130-149 | `_int_from_string` raises on text `int()` refuses and on a value outside a non-empty `valid_values`, and otherwise gives what `int()` reads |
| Config.IntFromStringRoundTrip | Config.py:130-149 | every allowed int reads back from its decimal text |
| Config.UintFromString | Config.py:151-172 | a mapped string wins outright; anything else must read as an allowed int that is not negative |
| Config.PaddingSmartIsNegative | Config.py:297-298 | the padding setting "smart" gives -1, which the text "-1" cannot |
| Config.FilePathFromString | Config.py:174-189 | `_file_path_from_string` returns the string exactly when it holds none of the invalid characters, and raises otherwise |
| Config.FormatTrackData | Config.py:191-211 | `_format_track_data` raises exactly when a field it substitutes is None, and leaves a pattern without '@' as it is |
| Config.ChainAbsent | Config.py:201-210 | text without '@' goes through any run of placeholder replacements unchanged |
| Config.ChainLone | Config.py:201-210 | a placeholder on its own becomes its value, when no earlier step has its pattern and the value holds no '@' |
| Config.PlaceholderAlone | Config.py:201-210 | each of the ten placeholders on its own gives its value (the artist, album or title, lower-cased for the small letter, or the year or track text) when that value holds no '@' |
| Config.StepsArePlaceholders | Config.py:201-210 | the ten patterns are distinct, two bytes long and start with '@' |
| Config.Steps | Config.py:201-210 | the replacements run in the order "@A", "@a", "@L", "@l", "@N", "@n", "@Y", "@y", "@T", "@t" |
| Config.NoPlaceholders | Config.py:201-210 | a pattern without '@' passes through every replacement |
| Config.TrackPlaceholder | Config.py:209 | "@T" gives the track as at least two digits |
| Config.UnpaddedTrackPlaceholder | Config.py:210 | "@t" gives `str(track)`, which `int()` reads back as the track |
| Config.YearPlaceholder | Config.py:207 | "@Y" gives exactly four digits for a year that is not negative |
| Config.ShortYearPlaceholder | Config.py:208 | "@y" gives exactly two digits for a year that is not negative |
| Config.PlaceholderUntouched | Config.py:201-210 | a placeholder is left alone by the replacement of another |
| Config.PlaceholderReplaced | Config.py:201-210 | a placeholder on its own is replaced whole |
| Config.PadDigitsAreDigits | Config.py:208-209 | zero-padding digits gives digits of at least the width |
| MusicTagger.CleanString | music_tagger.py:114-138 | the older `clean_string` gives TrackData's non-aggressive cleaning: single-spaced words, no '-' or '_', the first word capitalised |
| MusicTagger.WordLists | music_tagger.py:147-149 | `word_list` holds each string's words, one list per string |
| MusicTagger.ShortestIsMinimum | music_tagger.py:152-155 | `len_shortest_string` is the length of one of the lists, and no list is shorter |
| MusicTagger.Blanked | music_tagger.py:160-170 | blanking keeps the number of lists and the length of each |
| MusicTagger.Recombined | music_tagger.py:173-191 | recombining raises exactly when a list has no word, and otherwise gives one string per list |
| MusicTagger.CommonWordsRemoved | music_tagger.py:143-194 | `remove_common_words` raises exactly on an empty list or a string without words, and otherwise returns one string per input |
| MusicTagger.SplitEach | music_tagger.py:147-149 | the split loop gives `word_list` |
| MusicTagger.ShortestLength | music_tagger.py:152-155 | the minimum loop gives the shortest length |
| MusicTagger.AgreesAt | music_tagger.py:161-165 | the comparison loop reports whether every list has the first list's word at i |
| MusicTagger.BlankPosition | music_tagger.py:167-168 | blanking position i empties that word in every list and changes nothing else |
| MusicTagger.StopsAtMismatch | music_tagger.py:169-170 | once a position from 1 on disagrees, no later position is blanked |
| MusicTagger.BlankWithinShortest | music_tagger.py:160 | no position beyond the shortest list is blanked |
| MusicTagger.BlankedDone | music_tagger.py:160-170 | once no later position is blanked, the lists are the blanked ones |
| MusicTagger.BlankCommonWords | music_tagger.py:160-170 | the scan blanks exactly the positions where all lists agree, stopping at the first mismatch after position 0 |
| MusicTagger.Rejoin | music_tagger.py:175-191 | the recombination of one list, with its `previous_blank` flag |
| MusicTagger.RecombineAll | music_tagger.py:173-194 | the recombination of all lists, raising on a list without words |
| MusicTagger.RemoveCommonWords | music_tagger.py:143-194 | the loops of `remove_common_words` compute the common words removed |
| MusicTagger.FolderCleaned | music_tagger.py:198-206 | `clean_folder` never fails for at most one file and returns one name per file |
| MusicTagger.CleanFolder | music_tagger.py:198-206 | the loop cleans every name, then removes common words when there is more than one file |
| MusicTagger.SplitAppendSpaced | music_tagger.py:128 | `split()` of a + r is split(a) then split(r) when r starts with whitespace |
| MusicTagger.SplitAfterSpace | music_tagger.py:183-187 | a word appended after a space adds itself, and nothing else, to the split |
| MusicTagger.RejoinedAfterBlank | music_tagger.py:178-191 | after a blanked last word the text is empty or ends with a space |
| MusicTagger.RejoinedSplit | music_tagger.py:178-191 | the recombined text splits into exactly the words not blanked, in their original order |
| MusicTagger.RejoinedWithoutBlanks | music_tagger.py:178-191 | with no word blanked, recombining is the single-space join |
| MusicTagger.RejoinedBlanks | music_tagger.py:178-191 | a list of blanks recombines to the empty string |
| MusicTagger.SurvivingWordsInOrder | music_tagger.py:160-194 | each result splits into the words of its input that were not blanked, in order |
| MusicTagger.IdenticalStringsVanish | music_tagger.py:160-191 | when every string is the same text with words, every result is "" |
| MusicTagger.NoCommonWordsKeepsNames | music_tagger.py:160-191 | when position 0 and position 1 both differ somewhere, nothing is blanked and every name comes back single-spaced |
| PyStr.Ord | ID3v2.py:67 | `ord()` of a byte is below 256 |
| PyStr.Chr | ID3v2.py:653 | `chr()` of a byte value is the byte `ord()` reads back |
| PyStr.Lower | TrackData.py:106 | `lower()` keeps the length and lowers each byte |
| PyStr.Slice | ID3v2Parser.py:121 | a slice is clipped to the string and empty when its bounds cross |
| PyStr.StripLeftShape | ID3v1Parser.py:13 | the front of `strip()` removes a run of whitespace and nothing else |
| PyStr.StripRightShape | ID3v1Parser.py:13 | the back of `strip()` removes a run of whitespace and nothing else |
| PyStr.Strip | ID3v1Parser.py:13 | `strip()` leaves no whitespace at either end and changes a string without whitespace in no way |
| PyStr.Split | TrackData.py:109 | `split()` gives non-empty words without whitespace |
| PyStr.SplitSkipsSpaces | TrackData.py:109 | leading whitespace adds no word |
| PyStr.SplitJoin | TrackData.py:118 | splitting words joined by single spaces gives the words back |
| PyStr.JoinNormalised | TrackData.py:118 | joining words with single spaces gives a normalised string |
| PyStr.SplitAreWords | TrackData.py:109 | every result of `split()` is a list of words |
| PyStr.SplitOn | FilePathParser.py:26 | `split(c)` gives at least one piece, none holding c, the first being the text before the first c |
| PyStr.SplitOnJoin | FilePathParser.py:26 | splitting at a c splits the two sides independently |
| PyStr.JoinSplitOn | FilePathParser.py:26 | joining the pieces of `split(c)` with c restores the string |
| PyStr.ReplaceChar | TrackData.py:101-103 | `replace(a, b)` keeps the length and replaces every a by b |
| PyStr.ReplaceFirst | TrackData.py:99 | `replace(a, b, n)` keeps the length |
| PyStr.ReplaceAbsent | Config.py:201-210 | a pattern that does not occur leaves the string unchanged |
| PyStr.NatToString | ID3v2.py:684 | `str(n)` of a natural is digits only |
| PyStr.IntToString | ID3v1Parser.py:98 | `str(n)` is non-empty and holds no whitespace |
| PyStr.NatToStringValue | ID3v2.py:684 | the digits of `str(n)` read back as n |
| PyStr.ParseIntToString | TrackData.py:73 | `int(str(n)) == n` |
| PyStr.ParseDigits | FilePathParser.py:40-41 | a digit run is read exactly when `isdigit()` holds |
| PyStr.PadDigits | Config.py:209 | padding to k digits gives at least k bytes |
| PyStr.Last | Config.py:207-208 | `s[-k:]` for k > 0 gives the last k bytes of s, or all of a shorter string |

## Left out

- File and directory I/O (`open`, `seek`, `read`, `fopen`, `fread`, `opendir`, `readdir`, `os.mkdir`, `create_new_file`): every reader takes the file's bytes as a parameter, and `create_new_filesystem` is modelled by the names it builds (`TrackCollection.SongPath`). A failing `seek` on a short file is a `Failure`.
- Console output: `print`, `printf`, `printList*`, `printSplit`, the `__str__` methods, the text of warning strings, and the zero-size frame warning of `_FrameHeader` (ID3v2.py:324-326). Warnings are modelled as the values they are about.
- `Progress.py`: progress reporting with floating-point percentages. The `report_progress` callbacks of `TrackCollection` are left out with it.
- `Levenshtein.distance` is a foreign library: `TrackFile.Distance` is a function parameter, and every property holds for any distance.
- The text codecs of `_read_frame_text` (ISO-8859-1, UTF-16, UTF-8 and `encode('ascii', 'replace')`): ISO-8859-1 is modelled byte for byte, and the UTF decoders are a `TextDecoder` parameter.
- `re.match` and `re.split` are written out as explicit character checks (`FilePathParser.YearTagged`, `TrackData.BracketsReplaced`).
- The ID3v2.3 to ID3v2.2 table (ID3v2.py:41-54) and the property that the ID3v2.2 field IDs rename to the ID3v2.3 ones. Proofs that unfold the literal tables ran out of resource. Only the ID3v2.2 to ID3v2.3 direction is modelled, with its row facts.
- `Config.__init__` (argparse, ConfigParser, `sys.exit`), the `format_track_*` wrappers (Config.py:306-343), which only pass a configured pattern to `_format_track_data`, the script part of `music_tagger.py` and its `MusicFile` class.
- `read_id3_v1_tag` and `read_id3_v2_tag` in `music_tagger.py` are not part of this model: the reader modules replace them.
- `old_c_code/organize.c` and the C `main` functions: drivers only. Also left out are `loadFolders` (renamer.c:282-325), which walks directories, and the loop of `renameFiles` (renamer.c:353-369) beyond the cleaning steps it applies (`CCommon.RenameStepsMatchCleanString`).
- `removeCommonWords` in `old_c_code/renamer.c:373-449`: its empty `do {} while` loop (390-393) never ends. Of the older copy (old/renamer.c:269-312), only the size checks that open it are modelled. Its matching loop writes nothing back into `s`, never resets `matched` and only walks and frees split lists.
- Memory management (`malloc`, `calloc`, `free`) and the pointer frees of `readDirectory`. Objects are allocated with `new`, and nothing is freed.
- `addList` allocates `strlen` bytes and copies one more (renamer.c:47-54), with a `char` length. `FolderList.AddList` requires both names and their NULs to fit a WORDSIZE row instead.
- `PathStack.Stack.Push` and `FolderList.AddList` require the path to fit a WORDSIZE row: the C copies with `strcpy` into fixed rows, and overlong paths are memory errors.
- `CCommon.CharCopy`: requires the copy to stay inside both arrays. The unbounded skip over leading NULs and the over-read are exhibited by `CId3v2.CharCopyOverReads`.
- `PathStack.Stack.constructor`: the stack starts empty. `loadFolders` leaves the `size` of its `malloc`'d stack uninitialised (renamer.c:286).
- `FolderList.ReadDirectory`: requires a non-empty list, because the C dereferences `*current_list` before it tests for NULL.
- FolderList.RemoveOneFolder: requires `*fl` to be a node when `fl` is not NULL, because the C reads `(*fl)->folder` before its loop tests `*fl` (old/renamer.c:230).
- CId3v1.ExtractID3v1: stores the unsigned decimal text of the track byte (`CId3v1.TrackText`, the corrected reading of the Findings table). The C prints the byte through a signed `char` into three bytes, which overflows for every byte from 100 to 246 (246 prints as "-10"); `CId3v1.TrackTextAsWritten` models that text.
- CId3v1.ID3v1Fields: the track field is the corrected unsigned reading, as for `CId3v1.ExtractID3v1`.
- PathStack.Stack.Push: on overflow the size stays as it is (the corrected push of the Findings table). The C also runs `size++` then; `PathStack.PushAsWritten` models that.
- `CId3v2.ExtractID3v2`: a short file leaves bytes of the previous read in the header buffer. The stale bytes are modelled as a parameter. The model stores the corrected `FrameText` and `TrackParts` (see Findings), not the over-reading copies.
- Short reads of the Python readers raise `IndexError` or the syncsafe `Exception` depending on where they fall. Both become `Failure(Truncated)`.
- `TrackFile.TrackFile.constructor`: requires a non-empty path. The exception `__init__` raises on an empty path is modelled by `TrackFile.TrackFile.Create` and `TrackFile.InitAsWritten`.
- `TrackCollection` files `Song` values, not `TrackFile` objects. So restamping a year updates the stored value, not an object shared with other owners. Aliasing of TrackFile objects is not modelled: a TrackFile filed twice is two equal songs, which is why the deduplication lemmas ask that a bucket hold each song once.
- TrackCollection.StandardiseYears: promises a year of most votes among the non-zero years. Which of several tied years Python picks depends on dict iteration order, which is not modelled.
- TrackCollection.TrackCollection.RemoveDuplicates: the warnings are gathered in the order the buckets are visited, returned as a ghost `order` that lists every bucket once. Python's dict order is not modelled, so which order that is stays open.
- TrackData.DotsReplaced: states only that the length is kept. `TrackData.DotsReplacedKeepsExtensionDot` states the rule.
- PyStr.ReplaceFirst: states only that the length is kept. `TrackData.ReplaceFirstAll` relates it to replacing every occurrence.
- MusicTagger.CommonWordsRemoved: states the failure cases and the length. `MusicTagger.SurvivingWordsInOrder` states the content.
- ID3v2.FrameText: for selectors 1 to 3, promises only that a result is ASCII, because the UTF decoders are parameters.

## Findings

| source | as written | input that shows it | evidently intended | confidence | as-written member | corrected member |
|---|---|---|---|---|---|---|
| ID3v2.py:701 | the copy loop of `create_tag_string` reads the size of an old ID3v2.3 frame as syncsafe | an ID3v2.3 tag holding one frame of 200 bytes, size bytes 00 00 00 C8: the copy raises on the top bit of 0xC8 | read the size big-endian, as section 3.3.1 of ID3v2.3.0, `_FrameHeader` and `calculate_frame_size` do | not executed | ID3v2.SyncsafeCopyRejectsFrame | ID3v2.CopyWalkMatchesV23Reader |
| ID3v2Parser.py:60 | the text of a TRCK frame is `body[1:]`, which keeps the NUL the writer puts after the text | a TRCK frame the writer builds for track 5: `mint("5\0")` is None | cut the text at its NUL, so that a written track reads back | not executed | ID3v2RoundTrip.WrittenTrackLost | ID3v2RoundTrip.WrittenTrackReadBack |
| TrackFile.py:38 | `__init__` calls `clean_string`, which `TrackFile.py` never defines or imports by that name | `TrackFile("Artist/Album/01 Song.mp3")`: NameError | `TrackData.clean_string` | not executed | TrackFile.InitAsWrittenNeedsName | TrackFile.TrackFile.Create |
| old_c_code/renamer.c:240-259 | `push` runs `size++` also after reporting an overflow | a push on a stack holding STACKSIZE rows: size becomes STACKSIZE + 1, and the next push writes past the last row | leave the size as it is on overflow | not executed | PathStack.PushAsWrittenOverruns | PathStack.PushedBounded |
| old_c_code/id3v1.c:76-77 | `sprintf("%d")` of the track byte through a signed `char` into a 3-byte buffer | track byte 200: "-56" and its NUL are 4 bytes (bytes 100 to 127 overflow the buffer too) | print the byte as unsigned into a large enough buffer | not executed | CId3v1.TrackAsWrittenOverflows | CId3v1.ReadsCreatedTag |
| old_c_code/id3v2.c:58-59 | `charCopy(out, b, frame_size)` skips the selector NUL and then copies `frame_size` bytes | a selector-0 frame "\0abc" of size 4: five bytes are read from a four-byte body | copy the body after its leading NULs, up to its end | not executed | CId3v2.CharCopyOverReads | CId3v2.FrameTextIsCopy |
| old_c_code/id3v2.c:94-103 | the TRCK count is copied from the '/' on, and the track with `slash - 1` bytes counted from the body start | body "\0" + "3/12": the count is "/12" | split the text at its '/' into track and count | not executed | CId3v2.TrackPartsAsWrittenKeepsSlash | CId3v2.TrackParts |
