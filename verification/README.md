# Verified model of the Marshmallow engine's stateful cores

This project models, in Dafny, the parts of the Marshmallow game engine that keep state across calls, and proves what
they promise over every input and every run. Nothing here runs the engine. `dafny verify dfyconfig.toml` checks it.

Code that works by changing things step by step is modelled by classes and methods with loops; each method is proved
against a function of its inputs or of the old state, and the theorems are about those functions.

## The parts

**Audio.** `BufferIO` is the in-memory stream: a byte buffer with a cursor. `WaveTrack` reads a canonical wave header
from it and plays what follows. `Playback`, `PlaybackRuns` and `MixResult` say what playing and mixing mean; `Player` is
the tick that fills a buffer of any size from each playing track, rewinds in mid-buffer, counts repeats down, erases
entries while iterating and mixes with saturation. Main results: over any run of ticks a counted track contributes
exactly a prefix of its bytes repeated n times, and is dropped exactly when more was wanted; each pair of bytes handed to
the device is the fold over the tracks in key order of each track's own saturating mixer, 16-bit or 8-bit by its depth.
`Saturation` says what saturating means: each mixed value is the one of its width nearest to the sum, and so is that of a
whole tick when its tracks pull the same way.

**Text in the SQLite shell.** `Csv` holds the writer's loops and the meaning of `.import`; `CsvImport` the reader: a line
buffer that grows, a quote state carried across lines, fields cut and unquoted in place. `CsvLines` proves for every
separator that a table comes back exactly when each of its rows does by itself. `CsvRoundTrip` and `CsvSeparators` say
which rows those are: under a separator of one character all of them, except that a newline loses every table of more
than one column and a quote keeps only rows whose fields alternate; under a longer separator without quotes and newlines
those whose fields are safe.
`CsvLineEnds` adds files whose lines end in a carriage return and a newline, or with the file: they are read line by line,
and a printed table comes back from them as from its own line ends. `CsvFiles` joins both sides through a file, and
`CsvGrammar` compares printed fields and rows with section 2 of RFC 4180. `CEscape` is the C string escaper and the in-place resolver that undoes it. `Text` has streams and C strings.

**Base64.** `Base64` has the loop encoder and decoder and a separate definition of the encoding of section 4 of RFC 4648
through 24-bit groups. Each undoes the other, with the exact condition where one does.

**Events.** `Events` has the sorting criterion and the sort; `EventSteps` what each operation of the event manager does to
its listeners and its two queues when handlers queue, dequeue, connect and disconnect; `EventRuns` what holds over every
run, and `EventOrder` that events of equal priority and time are first in, first out over every run; `EventManager` the
class whose loops do those steps.

**Tile maps.** `TileRange` has the visible range and its exact meaning; `TileGroups` the wrap-around addressing and the
grouping by tile index; `TileDraws` the tileset lookup and the draws; `TilemapSceneLayer` the class and its loops. `Atlas`
and `Tileset` are the geometry of a tileset's texture and its cache of coordinates.

**Physics and pacing.** `Movement` is the fixed-step loop; `FramePacing` the time accumulators of the game loop, and
`PacingClock` what they count of the clock; `Collision` and `ColliderComponent` the overlap of moving boxes, the response
and the walk over a layer's colliders; `CollisionLaws` when a box answers, and that left and right and the two axes are
treated alike.

**Scenes.** `SceneWalk` and `Scene` are the backward walk over a scene's layers with removal and blocking flags.

`Bytes` and `Sequences` hold what several of these share.

## What the code does that its callers may not expect

For each of these the lemma or contract named says exactly when the expected property holds.

- A wave file of 41 to 44 bytes plays its length field as sound: a seek relative to the cursor refuses the end of the
  stream (`WaveTrack.SoundFollowsHeader`, `BufferIO.CurrentRefusesOnlyTheEnd`).
- A seek from the end may leave the cursor behind the stream (`BufferIO.SeekKeepsCursorInside`). A stream that a track
  refuses does not make an earlier valid track invalid (`WaveTrack.WaveTrack.SetData`).
- The last byte of a 16-bit track of odd length is lost (`MixResult.SoloIsVerbatim`).
- The CSV writer looks for a separator of several characters only at the start of a field, so the rows come back exactly
  when their fields are safe (`CsvRoundTrip.PlainRoundTrip`; `CsvRoundTrip.LongSeparatorBreaks` is an example).
- A newline in the separator ends the line: a table comes back exactly when it is empty or has one column
  (`CsvRoundTrip.NewlineRoundTrip`).
- The CSV reader takes a quote in the separator for one that opens or closes a field. With the quote itself as separator
  exactly the rows come back whose fields alternate between quoted and bare (`CsvSeparators.QuoteRoundTrip`); with a
  quote followed by other characters a table comes back exactly when it has one column and the separator is not found
  inside a quoted field (`CsvSeparators.QuoteAndMoreRoundTrip`).
- Printed lines end in a newline alone, where RFC 4180 asks for a carriage return too (`CsvLineEnds.LineEndsDiffer`).
- Of a line that ends in a newline alone the CSV reader also takes off a carriage return that was its own last character
  (`CsvLineEnds.NewlineFileIsRead`), and a quote that is never closed makes one line of the rest of the file
  (`CsvLineEnds.OpenQuoteTakesAll`).
- The Base64 encoder returns one more than the length of its text when the input length is 2 mod 3, and reads a byte
  behind the input; its text is the standard's exactly when that byte adds no bits (`Base64.ReportedSizeIs`,
  `Base64.FollowsRfc4648`).
- The events' sorting criterion is a strict order exactly on queues without a pair of higher priority and later time
  (`Events.CriterionIsOrder`). Exactly such a pair makes a due event wait behind one that is not due
  (`Events.ConflictBlocksDue`), and exactly the queues without one never do that in whatever order they were filled
  (`Events.SafeInAnyOrder`).
- An event outside the active queue is not sent by an execute call, however long it has been due
  (`EventRuns.OtherQueueWaits`).
- A dispatch also ends when a handler disconnects a listener that was never connected to the event's type
  (`EventRuns.StrangerEndsDispatch`).
- A tileset attached under key 0 is never found (`TileDraws.TilesetIsLargest`).
- A texture reloaded at another size under the same object leaves a tileset's tables and cache as they were
  (`Tileset.Tileset.SetTexture`).
- Of a wait of more than an eighth of a second all but one render target is lost to the seconds and to rendering
  (`PacingClock.RunCounts`).
- Renders are dropped exactly when an active frame completes two or more render targets at once
  (`FramePacing.PacingOfRun`).
- Velocity limits hold exactly when they leave room for a velocity (`Movement.LimitsHold`).
- A bullet is tested at the inner steps of the delta only, never at its end; with a resolution of one or less it hits
  nothing (`Collision.BulletHitsFirst`).

## Model

| member | source | states |
|---|---|---|
| BufferIO.ChunksAreOneRead | src/core/bufferio.cpp:208-227 | Reading in any chunks delivers what one read of the total size delivers |
| BufferIO.WriteSeekRead | src/core/bufferio.cpp:229-279 | Writing, seeking back and reading returns what was written, and every other byte is kept |
| BufferIO.SeekKeepsCursorInside | src/core/bufferio.cpp:249-279 | An accepted seek leaves the cursor inside the stream exactly unless it goes past End with a positive offset |
| BufferIO.ThreeWaysToSeek | src/core/bufferio.cpp:249-279 | A place is reached from start, end and cursor alike; none before the stream, one behind it only from the end, the end itself not from the cursor |
| BufferIO.CurrentRefusesOnlyTheEnd | src/core/bufferio.cpp:249-279 | A seek from the cursor is a seek to the sum exactly unless the sum is the end of the stream |
| BufferIO.BufferIO.Over | src/core/bufferio.cpp:67-78 | A stream over a writable buffer starts open at its first byte |
| BufferIO.BufferIO.OverConst | src/core/bufferio.cpp:80-91 | A stream over a constant buffer is readable but not writable |
| BufferIO.BufferIO.CopyOf | src/core/bufferio.cpp:93-140 | A copy of a stream that holds anything has its bytes in a buffer of its own; a closed source is not touched, an open one keeps its bytes, and its cursor if that was inside |
| BufferIO.BufferIO.Close | src/core/bufferio.cpp:176-188 | A closed stream is not open and holds nothing |
| BufferIO.BufferIO.Tell | src/core/bufferio.cpp:281-285 | The cursor is reported |
| BufferIO.BufferIO.Read | src/core/bufferio.cpp:208-227 | A read delivers the bytes at the cursor that there are, moves the cursor by their number, and touches nothing else |
| BufferIO.BufferIO.Write | src/core/bufferio.cpp:229-247 | A write replaces the bytes at the cursor that fit and moves the cursor; a constant stream refuses it |
| BufferIO.BufferIO.Seek | src/core/bufferio.cpp:249-279 | A seek goes where it should or is refused and leaves the cursor alone |
| WaveTrack.WaveTrack.SetData | src/audio/wavetrack.cpp:199-206 | A stream with a canonical header makes the track ready at its first byte of sound; another leaves an earlier track as it was |
| WaveTrack.WaveTrack.Reset | src/audio/wavetrack.cpp:87-172 | The header is accepted exactly when canonical; then rate, depth, channels and the first byte of sound are known |
| WaveTrack.WaveTrack.Read | src/audio/wavetrack.cpp:174-178 | A read delivers the next bytes of the sound and counts them as played |
| WaveTrack.WaveTrack.Seek | src/audio/wavetrack.cpp:180-185 | A frame is reached exactly when it lies within the stream; otherwise the cursor stays |
| WaveTrack.WaveTrack.Rewind | src/audio/wavetrack.cpp:248-253 | After a rewind the whole sound is still to be played |
| WaveTrack.Validate | src/audio/wavetrack.cpp:262-316 | A stream is accepted exactly when it begins as a RIFF wave file; the cursor is then behind that beginning |
| WaveTrack.ReadHeader | src/audio/wavetrack.cpp:87-160 | The header read field by field is accepted exactly when it is canonical |
| WaveTrack.SoundFollowsHeader | src/audio/wavetrack.cpp:150-171 | A track plays exactly the bytes after its 44-byte header, except when one to four bytes follow offset 40 |
| WaveTrack.HeaderThenSound | src/audio/wavetrack.cpp:87-172 | A canonical header followed by a non-empty sound plays that sound |
| WaveTrack.RiffLayout | src/audio/wavetrack.cpp:262-316 | A stream is a wave file when RIFF stands at offset 0 and WAVE at 8 |
| WaveTrack.HeaderLayout | src/audio/wavetrack.cpp:87-172 | A header is accepted exactly when it is laid out as the format says, but for its lengths |
| WaveTrack.FormatLayout | src/audio/wavetrack.cpp:162-171 | Channels, frame rate and bit depth come from offsets 22, 24 and 34, the first and last cut to a byte |
| Playback.PassFills | src/audio/player.cpp:231-253 | A pass that fills the buffer takes exactly what was wanted and keeps the repeat count |
| Playback.PassRunsOut | src/audio/player.cpp:264-280 | A pass that runs out rewinds, counts one repeat down and goes on with the rest |
| Playback.LastPassRunsOut | src/audio/player.cpp:264-280 | The last repeat running out ends the entry |
| Playback.TickKeepsPlayable | src/audio/player.cpp:224-283 | An entry that goes on after a tick can be served by the next one |
| Playback.LoopedContinues | src/audio/player.cpp:231-280 | What two ticks take is what one longer tick takes from the repeated sound |
| PlaybackRuns.KeysStayAscending | src/audio/player.cpp:224-283 | A tick keeps the playlist's keys in ascending order |
| PlaybackRuns.TickKeepsAllPlayable | src/audio/player.cpp:202-287 | Every entry left after a tick can be served by the next one, so every tick ends |
| PlaybackRuns.NeverAgain | src/audio/player.cpp:224-283 | A track not in the playlist contributes nothing to any run |
| PlaybackRuns.HeardIsLooped | src/audio/player.cpp:202-287 | Over any run a track contributes the repetition of its sound from where it stands, cut where its count runs out |
| PlaybackRuns.PlayedTimes | src/audio/player.cpp:166-287 | Over any run a track played n times contributes a prefix of its sound repeated n times, and is dropped exactly when more was wanted |
| PlaybackRuns.PlayedForever | src/audio/player.cpp:166-287 | A track played without end fills every tick of every run and is never dropped |
| PlaybackRuns.RunForIsRun | src/audio/player.cpp:202-222 | Ticks by the frames the device has room for are the run of the bytes wanted: a tick without room changes and writes nothing |
| MixResult.MixInSample | src/audio/player.cpp:58-68 | Mixing a track in changes each whole 16-bit sample by the saturating mixer, once |
| MixResult.MixedSample | src/audio/player.cpp:224-253 | When all tracks are 16-bit, every whole sample of a tick's mix is the fold of the 16-bit mixer over them in key order |
| MixResult.NoClippingIsPlainSum | src/audio/player.cpp:58-68 | When no partial sum clips, the mix is the plain sum |
| MixResult.MixedByteIsFold | src/audio/player.cpp:224-253 | When no track is 16-bit, every byte of the mix is the fold of the 8-bit mixer |
| MixResult.MixedPairIsFold | src/audio/player.cpp:224-253 | Whatever depths play together, each pair of bytes of the mix is the fold over the tracks in key order of the mixer of each track's own depth |
| MixResult.LastByteIsFold | src/audio/player.cpp:224-253 | The last byte of a mix of odd length is the fold of the 8-bit mixer over the tracks that are not 16-bit |
| MixResult.SoloIsVerbatim | src/audio/player.cpp:58-68 | One track at unit gain is heard verbatim and then silence, exactly unless an odd last byte of a 16-bit track is lost |
| Saturation.MixedInSampleIsNearest | src/audio/player.cpp:58-62 | Mixing in a 16-bit track replaces each whole sample by the 16-bit value nearest to the sum of both |
| Saturation.MixedInByteIsNearest | src/audio/player.cpp:64-68 | Mixing in a track of another depth replaces each byte by the 8-bit value nearest to the sum of both |
| Saturation.ScaledIsProduct | src/audio/player.cpp:61-67 | A share is the sample times the gain less a fraction, and odd in the sample |
| Saturation.OneSidedIsNearest | src/audio/player.cpp:224-253 | Shares that pull one way saturate like their sum: above the range the highest value, below it the lowest |
| Saturation.TickSampleIsNearest | src/audio/player.cpp:202-287 | Where the 16-bit tracks of a tick pull one way, the sample written is the one nearest to the sum of their shares |
| Saturation.TickByteIsNearest | src/audio/player.cpp:202-287 | The same of each byte when no track is 16-bit |
| Player.MixNextSample | src/audio/player.cpp:231-253 | The mixing loop's next sample is the mixer applied to that sample of the buffer |
| Player.OddByteWaits | src/audio/player.cpp:231-253 | A single byte at the end of a read is not mixed until its sample is whole |
| Player.MixSamples | src/audio/player.cpp:231-253 | Each whole sample read is mixed exactly once, also when reads end at odd bytes |
| Player.DecodeAndMix | src/audio/player.cpp:231-253 | One read from a track fills the buffer from the offset on and mixes what became whole |
| Player.PassOutcome | src/audio/player.cpp:224-283 | A pass and what follows it make the outcome of the whole entry |
| Player.Serve | src/audio/player.cpp:224-283 | The loop over one entry fills, rewinds and counts down as its outcome says, and ends |
| Player.PutKeepsOrder | src/audio/player.cpp:166-178 | Setting a playlist entry keeps the keys ascending |
| Player.PutMembers | src/audio/player.cpp:166-178 | Setting an entry replaces the one of its key and leaves every other |
| Player.EraseKeepsOrder | src/audio/player.cpp:180-186 | Erasing a playlist entry keeps the keys ascending |
| Player.Player.Play | src/audio/player.cpp:166-178 | Playing sets the entry and rewinds the track; playing zero times stops it |
| Player.Player.Stop | src/audio/player.cpp:180-186 | Stopping removes the entry and nothing else |
| Player.Player.Rewind | src/audio/player.cpp:194-200 | Rewinding a known track puts it at its start and touches no other |
| Player.Player.SetPcm | src/audio/player.cpp:122-140 | The device is replaced, and buffers, once there, have its size |
| Player.Player.ServeAll | src/audio/player.cpp:224-283 | Every entry is served once in key order; finished ones are erased while iterating |
| Player.Player.Tick | src/audio/player.cpp:202-287 | A tick writes the mix of all entries, and playlist and tracks are those the specification says; without room nothing changes |
| Player.Player.TickAll | src/audio/player.cpp:202-287 | A run of ticks takes the player where the run of the abstract player goes, and hands the device the mix of every tick of that run |
| Csv.OutputCsv | contrib/sqlite3/code/shell.c:627-656 | A field is printed bare or quoted with its quotes doubled, as its characters and the separator ask |
| Csv.ScanField | contrib/sqlite3/code/shell.c:632-642 | A field is quoted exactly when it is empty or has a character that asks for it |
| Csv.OutputRow | contrib/sqlite3/code/shell.c:814-827 | A row is printed as its fields with separators between them and a newline |
| Csv.OutputRows | contrib/sqlite3/code/shell.c:814-827 | The rows printed are the text of the table |
| CsvGrammar.FieldFollowsRfc4180 | contrib/sqlite3/code/shell.c:603-656 | With a comma, a printed field is a field of section 2 of RFC 4180 exactly when the grammar has a place for all its characters |
| CsvGrammar.RowFollowsRfc4180 | contrib/sqlite3/code/shell.c:814-827 | With a comma, a printed row is a record of section 2 of RFC 4180 exactly when the grammar has a place for all its characters |
| CsvGrammar.QuotesByTable | contrib/sqlite3/code/shell.c:599-620 | The characters that ask for quotes are those of the table |
| CsvLineEnds.LineEndsDiffer | contrib/sqlite3/code/shell.c:814-827 | The printed text is that of the same rows under the line ends of RFC 4180 for the empty table only |
| CsvLineEnds.NewlineEnds | contrib/sqlite3/code/shell.c:365-374 | A line is read up to its newline outside quotes, and the newline is taken off with one carriage return before it |
| CsvLineEnds.ReturnAndNewlineEnd | contrib/sqlite3/code/shell.c:365-374 | A line that ends in a carriage return and a newline is read as it is |
| CsvLineEnds.OpenQuoteTakesAll | contrib/sqlite3/code/shell.c:355-374 | A quote that is never closed makes one line of the rest of the file |
| CsvLineEnds.AnyNewlineEnds | contrib/sqlite3/code/shell.c:369-374 | Outside CSV mode a line ends at its first newline, quotes or not |
| CsvLineEnds.ReturnFileIsRead | contrib/sqlite3/code/shell.c:1869-1916 | A file with the line ends of RFC 4180 is imported line by line, or rolled back when a line has a wrong number of fields |
| CsvLineEnds.NewlineFileIsRead | contrib/sqlite3/code/shell.c:1869-1916 | So is one with newlines alone, but for a carriage return that was a line's own last character |
| CsvLineEnds.LastEndMayMiss | contrib/sqlite3/code/shell.c:355-364 | The end of the last line may be missing |
| CsvLineEnds.PrintedEndsAreAlike | contrib/sqlite3/code/shell.c:337-378 | A printed table is imported alike under both line ends |
| CsvLineEnds.ReturnRoundTrip | contrib/sqlite3/code/shell.c:1869-1916 | Under the line ends of RFC 4180 too, and a separator without quote and newline, rows come back exactly when every field is safe |
| CsvImport.InFile.Fgets | contrib/sqlite3/code/shell.c:337-378 | A chunk is read up to the newline or the size of the buffer |
| CsvImport.ChunkScan | contrib/sqlite3/code/shell.c:337-378 | A chunk ends the line exactly when its newline is outside quotes |
| CsvImport.ScanQuotes | contrib/sqlite3/code/shell.c:365-368 | The quote state after a chunk is that of its characters |
| CsvImport.LocalGetline | contrib/sqlite3/code/shell.c:337-378 | The growing buffer holds the next line, newlines inside quotes included |
| CsvImport.SplitLine | contrib/sqlite3/code/shell.c:1869-1895 | The line is cut in place at separators outside quotes, and the fields are counted |
| CsvImport.UnquoteInPlace | contrib/sqlite3/code/shell.c:1896-1906 | A quoted field is unquoted in place, never past the reading index |
| CsvImport.BindColumns | contrib/sqlite3/code/shell.c:1896-1906 | The values bound are the unquoted fields |
| CsvImport.ImportFile | contrib/sqlite3/code/shell.c:1869-1916 | Importing a file gives the rows of its text, or rolls back at the first line with a wrong number of fields |
| CsvLines.LineOfRow | contrib/sqlite3/code/shell.c:337-378 | Whenever no newline of a printed row is outside quotes and the quotes balance, the line read is that row |
| CsvLines.ReadWeight | contrib/sqlite3/code/shell.c:1869-1906 | A line that is read as a row holds as many characters other than quotes as the printed row |
| CsvLines.BrokenRowIsLost | contrib/sqlite3/code/shell.c:337-378 | A row that was not printed as one line is not what the reader makes of the line it gets |
| CsvLines.RoundTripByRows | contrib/sqlite3/code/shell.c:1869-1916 | For every separator, rows of a fixed number of fields are imported as they were printed exactly when each row comes back by itself |
| CsvRoundTrip.UnquotedField | contrib/sqlite3/code/shell.c:1896-1906 | Unquoting a printed field gives the field |
| CsvRoundTrip.QuotedForSeparator | contrib/sqlite3/code/shell.c:632-642 | A field is quoted for the separator when it holds one of one character, or begins with a longer one |
| CsvRoundTrip.RowReadBack | contrib/sqlite3/code/shell.c:1869-1906 | A printed row is read back as it was exactly when all its fields are safe |
| CsvRoundTrip.PlainIsOneLine | contrib/sqlite3/code/shell.c:337-378 | Under a separator without quote and newline every printed row is one line, whatever newlines its fields hold |
| CsvRoundTrip.RoundTrip | contrib/sqlite3/code/shell.c:1869-1916 | For every separator that does not begin with a quote, rows are imported as they were printed exactly when every row is one line and every field is safe |
| CsvRoundTrip.PlainRoundTrip | contrib/sqlite3/code/shell.c:1869-1916 | For every separator without quote and newline, rows are imported as they were printed exactly when every field is safe |
| CsvRoundTrip.OneCharacterIsSafe | contrib/sqlite3/code/shell.c:627-656 | Under a separator of one character every field is safe |
| CsvRoundTrip.NewlineRoundTrip | contrib/sqlite3/code/shell.c:337-378 | Under a separator with a newline and no quote a table comes back exactly when it is empty or has one column |
| CsvRoundTrip.LongSeparatorBreaks | contrib/sqlite3/code/shell.c:632-642 | A concrete field that a separator of two characters breaks |
| CsvSeparators.KeptIffAlternating | contrib/sqlite3/code/shell.c:1869-1906 | Under the quote as separator a row comes back exactly when its fields alternate: quoted without a quote inside, then bare, the last one bare |
| CsvSeparators.QuoteRoundTrip | contrib/sqlite3/code/shell.c:1869-1916 | Under the quote as separator a table comes back exactly when the fields of every row alternate |
| CsvSeparators.OneCharacterRoundTrip | contrib/sqlite3/code/shell.c:1869-1916 | For every separator of one character: every table comes back, but under a newline only empty tables and single columns, and under a quote only alternating rows |
| CsvSeparators.QuoteAndMoreRoundTrip | contrib/sqlite3/code/shell.c:1869-1916 | Under a separator that begins with a quote and has other characters a table comes back exactly when it is empty, or has one column and no quoted field holds the separator where a quote of it is doubled |
| CsvFiles.PrintAndImport | contrib/sqlite3/code/shell.c:1869-1916 | The writer's loops and then the reader's, through a file and under any separator, give the rows back exactly when each of them comes back by itself |
| CEscape.OutputCString | contrib/sqlite3/code/shell.c:537-563 | The string is printed escaped between quotes |
| CEscape.ResolveBackslashes | contrib/sqlite3/code/shell.c:1495-1522 | The string is resolved in place; nothing behind its new end is touched |
| CEscape.ResolveUnit | contrib/sqlite3/code/shell.c:1498-1520 | A turn of the loop writes one character, never past the reading index, and reads the rest of the string as it was |
| CEscape.ReadUnit | contrib/sqlite3/code/shell.c:1498-1518 | An escape of one to three octal digits, or a letter, is read as one character |
| CEscape.UnitOfEscaped | contrib/sqlite3/code/shell.c:1498-1518 | An escape is read back as its character, whatever digits follow it |
| CEscape.OctalEscape | contrib/sqlite3/code/shell.c:1506-1516 | A backslash and one to three octal digits stand for their number, cut to a byte, and no more digits belong to it |
| CEscape.LetterEscape | contrib/sqlite3/code/shell.c:1498-1505 | A backslash and n, t or r stand for newline, tab and carriage return, and any other character for itself |
| CEscape.ResolveUndoesEscape | contrib/sqlite3/code/shell.c:1495-1522 | Resolving an escaped string gives the string back |
| CEscape.EscapedIsPrintable | contrib/sqlite3/code/shell.c:537-563 | An escaped string is printable and has no quote that would end it |
| CEscape.EscapeLengths | contrib/sqlite3/code/shell.c:537-563 | Printable characters but backslash and quote are printed as they are; these two, tab, newline and return take two characters, every other a backslash and three digits |
| Base64.Letter | src/core/base64.cpp:47-48 | The letters of the sextets are in the alphabet, and the value table undoes them |
| Base64.ValueLetter | src/core/base64.cpp:50-64 | Every letter of the alphabet comes back from its value |
| Base64.AlphabetInOrder | src/core/base64.cpp:47-48 | The alphabet is A to Z, a to z, 0 to 9, plus and slash, in this order |
| Base64.StrangersAreA | src/core/base64.cpp:50-64 | A character outside the alphabet is decoded like an A |
| Base64.FollowsRfc4648 | src/core/base64.cpp:114-142 | The text is the encoding of section 4 of RFC 4648 exactly when the byte behind the input adds no bits to it |
| Base64.EncodedLength | src/core/base64.cpp:114-142 | The text has four characters for every three bytes or part of them |
| Base64.ReportedSizeIs | src/core/base64.cpp:114-120 | The size returned is the length of the text exactly unless the input length is 2 mod 3 |
| Base64.Encode | src/core/base64.cpp:114-142 | The loop writes the text and its terminator |
| Base64.Decode | src/core/base64.cpp:68-112 | The loop writes the decoded bytes and a terminating zero; texts of a wrong length are refused |
| Base64.DecodeUndoesEncode | src/core/base64.cpp:68-142 | Decoding the encoder's text gives the non-empty input back |
| Base64.EncodedDecodable | src/core/base64.cpp:68-142 | Every text the encoder writes lies inside the decoder's table |
| Base64.EncodeAndDecode | src/core/base64.cpp:68-142 | The encoder's loop and then the decoder's, given the true length of the text, return the input and a terminating zero |
| Base64.EncodeUndoesDecode | src/core/base64.cpp:68-142 | A well-formed text is encoded back to itself exactly when its spare bits are zero |
| Events.CriterionIsOrder | src/event/eventmanager.cpp:70-74 | The criterion is asymmetric on a queue exactly when it has no conflict, and is then priority descending, time ascending |
| Events.SortedKeeps | src/event/eventmanager.cpp:261 | Sorting loses and adds no event, conflict or not |
| Events.SortedInOrder | src/event/eventmanager.cpp:261 | Without conflicts a sorted queue is in order |
| Events.SortedStable | src/event/eventmanager.cpp:261 | Without conflicts ties keep their order |
| Events.AnyStableSort | src/event/eventmanager.cpp:261 | Without conflicts the sorted queue is the only one in order with the same ties, so every stable sort gives it |
| Events.NothingDueBehind | src/event/eventmanager.cpp:264-275 | Without conflicts nothing behind an event that is not due is due |
| Events.ConflictBlocksDue | src/event/eventmanager.cpp:261 | Of two events the later one is sorted in front of the earlier, queued first, exactly when they are in conflict |
| Events.SafeInAnyOrder | src/event/eventmanager.cpp:256-283 | The times of a sorted queue never descend, in whatever order its events were queued, exactly when it has no conflict |
| EventSteps.LeftOrGone | src/event/eventmanager.cpp:233-254 | A dequeue splits the queue in the events that match and those that do not, losing none |
| EventOrder.LeftJoin | src/event/eventmanager.cpp:233-254 | A dequeue treats every event of the queue by itself and keeps the order of the others |
| EventOrder.LeftOne | src/event/eventmanager.cpp:233-254 | It removes an event exactly when it is the one named, or of its type when all of the type are named |
| EventOrder.ConnectsLast | src/event/eventmanager.cpp:133-166 | A new listener is called after those already connected to the type; no other type changes |
| EventOrder.DisconnectTakesOut | src/event/eventmanager.cpp:168-190 | Disconnecting takes the listener out from between the others and touches no other type |
| EventOrder.DisconnectUndoesConnect | src/event/eventmanager.cpp:133-190 | Disconnecting a listener that was just connected leaves every list as it was |
| Sequences.WithoutKeepsDistinct | src/event/eventmanager.cpp:168-190 | Removing a listener keeps a list free of duplicates |
| EventSteps.DispatchedInTurn | src/event/eventmanager.cpp:192-254 | Whatever handlers do, the queue being drained stays as it is |
| EventSteps.Turn | src/event/eventmanager.cpp:270-275 | The event removed from the front is the one that was just dispatched |
| EventRuns.DequeuedConserves | src/event/eventmanager.cpp:233-254 | A dequeue moves events from the waiting queue to the dequeued, none twice |
| EventRuns.DrainedConserves | src/event/eventmanager.cpp:270-275 | Draining keeps every event in exactly one place |
| EventRuns.DrainedPrefix | src/event/eventmanager.cpp:264-283 | Draining sends a prefix of the queue, and ends early only at an event ahead of the clock |
| EventRuns.ExecutedPrefix | src/event/eventmanager.cpp:256-283 | What an execute call sends was in the active queue when it began; nothing queued during it is sent |
| EventRuns.OtherQueueWaits | src/event/eventmanager.cpp:256-283 | An event that is not in the active queue when an execute call begins is not sent by it |
| EventRuns.ExecutedInOrder | src/event/eventmanager.cpp:256-283 | Without conflicts events are sent in order, ties first in first out, and no due event remains when it stops early |
| EventRuns.DrainedPunctual | src/event/eventmanager.cpp:270-275 | No event is sent before its time |
| EventRuns.ActedKeepsLists | src/event/eventmanager.cpp:133-190 | No operation connects a listener twice to one type |
| EventRuns.StrangerEndsDispatch | src/event/eventmanager.cpp:168-190 | Disconnecting a listener that was not connected changes no list and still ends the dispatch |
| EventRuns.InvalidWhenTouched | src/event/eventmanager.cpp:133-190 | A handler invalidates the dispatch exactly when it touches that type's listeners; otherwise the list is as it was |
| EventRuns.CallKeepsWalking | src/event/eventmanager.cpp:208-215 | A call that neither handles nor touches leaves the iterator on the next listener |
| EventRuns.EraseKeepsWalking | src/event/eventmanager.cpp:214 | Erasing a null listener leaves the iterator on the next one |
| EventRuns.DispatchedPrefix | src/event/eventmanager.cpp:192-223 | A dispatch calls a prefix of the type's listeners in connect order, each at most once, ending at the first that handles or touches |
| EventRuns.RunKeeps | src/event/eventmanager.cpp:133-283 | Over every run each queued event is in exactly one place, none is sent early, and listener lists stay free of duplicates |
| EventRuns.SentAtMostOnce | src/event/eventmanager.cpp:225-283 | An event queued once and never dequeued was sent once or is still in one queue |
| EventOrder.RunKeepsOrder | src/event/eventmanager.cpp:225-283 | Over every run without conflicting events, an event keeps its place before another of the same priority and time unless one is dequeued |
| EventOrder.FirstInFirstOut | src/event/eventmanager.cpp:225-283 | An event queued behind another of the same priority and time is not sent before it, whatever the listeners do |
| EventOrder.NoDispatchBetween | src/event/eventmanager.cpp:192-223 | Between the operations of a run no type is being dispatched |
| EventManager.EventManager.Connect | src/event/eventmanager.cpp:133-166 | A listener is appended unless it is there; the result says which |
| EventManager.EventManager.Disconnect | src/event/eventmanager.cpp:168-190 | A listener is removed from a known type |
| EventManager.EventManager.Queue | src/event/eventmanager.cpp:225-231 | An event goes to the end of the queue that is not being drained |
| EventManager.EventManager.Dequeue | src/event/eventmanager.cpp:233-254 | The matching events leave the queue that is not being drained |
| EventManager.RemoveKind | src/event/eventmanager.cpp:238-248 | The backward walk erases exactly the events of the type |
| EventManager.EventManager.Walk | src/event/eventmanager.cpp:205-215 | The walk over the listeners does what the specification says, and follows its iterator only while the list is untouched |
| EventManager.EventManager.Dispatch | src/event/eventmanager.cpp:192-223 | A dispatch reports whether the last listener called handled the event |
| EventManager.EventManager.TakeTurn | src/event/eventmanager.cpp:270-275 | A turn of the execute loop reads the clock, dispatches the head when due, and removes it |
| EventManager.EventManager.Execute | src/event/eventmanager.cpp:256-283 | An execute call drains the sorted queue; the queues change places exactly when it is empty |
| EventManager.EventManager.RunAll | src/event/eventmanager.cpp:133-283 | A run of the manager reaches the state of the abstract run |
| TileRange.MapIsCentred | src/game/tilemapscenelayer.cpp:192-205 | The cells are drawn side by side from the top down, the middle of the map at minus the translation |
| TileRange.Columns | src/game/tilemapscenelayer.cpp:165-172 | The first and last column drawn, exactly |
| TileRange.Rows | src/game/tilemapscenelayer.cpp:173-178 | The first and last row drawn, exactly |
| TileRange.RangeIsOverlap | src/game/tilemapscenelayer.cpp:145-178 | The cells drawn are exactly those that overlap the viewport widened by half a tile, or the square around a turned camera's circle |
| TileRange.WithinRadius | src/graphics/camera.cpp:59-65 | A turned point of the viewport stays within the visible radius |
| TileRange.NothingVisibleCulled | src/game/tilemapscenelayer.cpp:145-178 | Every cell with a point inside it that the camera sees is in the range |
| TileGroups.WrapIsModulo | src/game/tilemapscenelayer.cpp:183-188 | Rows and columns, negative ones included, wrap to their Euclidean remainder |
| TileGroups.AddressIsModulo | src/game/tilemapscenelayer.cpp:182-188 | A cell shows the word at its row modulo height and its column modulo width, inside the data |
| TileGroups.Address | src/game/tilemapscenelayer.cpp:182-188 | Every read is inside the map data |
| TileGroups.OneCell | src/game/tilemapscenelayer.cpp:182-215 | A cell adds the word at its row modulo height and its column modulo width, at its origin, and nothing when the word is zero |
| TileGroups.RowSplits | src/game/tilemapscenelayer.cpp:186-215 | A row is scanned from left to right |
| TileGroups.RowsSplit | src/game/tilemapscenelayer.cpp:182-215 | A range is scanned row after row from its first |
| TileGroups.CountedAdds | src/game/tilemapscenelayer.cpp:209 | Counting a tile index adds one to its count and to no other |
| TileGroups.GroupsOfScan | src/game/tilemapscenelayer.cpp:182-215 | The groups hold for every tile index exactly its cells in scan order, as many as were counted and no more than the largest count |
| TileGroups.GroupedTotal | src/game/tilemapscenelayer.cpp:182-215 | The counts add up to the number of non-empty cells |
| TileDraws.TilesetIsLargest | src/game/tilemapscenelayer.cpp:108-127 | The tileset found has the largest key up to the index; key 0 is never found |
| TileDraws.EachCellDrawnOnce | src/game/tilemapscenelayer.cpp:219-251 | Each tile index is drawn at most once, at exactly its cells in scan order, with the tile as far behind the key of its tileset as the index is; every cell whose index has a tileset is drawn |
| TileDraws.VisibleCellIsDrawn | src/game/tilemapscenelayer.cpp:129-252 | Every non-empty cell the camera sees, and whose index has a tileset, is drawn at its place with the tile of its index |
| TilemapSceneLayer.TilemapSceneLayer.Recalculate | src/game/tilemapscenelayer.cpp:264-276 | The sizes on screen agree with map size, tile size and scale |
| TilemapSceneLayer.TilemapSceneLayer.SetSize | src/game/tilemapscenelayer.cpp:368-374 | A new map size keeps the sizes on screen right |
| TilemapSceneLayer.TilemapSceneLayer.SetTileSize | src/game/tilemapscenelayer.cpp:382-388 | A new tile size keeps the sizes on screen right |
| TilemapSceneLayer.TilemapSceneLayer.SetScale | src/game/tilemapscenelayer.cpp:396-401 | A new scale keeps the sizes on screen right |
| TilemapSceneLayer.AttachedMembers | src/game/tilemapscenelayer.cpp:321-326 | Attaching a tileset replaces the one under its key and leaves every other |
| TilemapSceneLayer.AttachedKeepsOrder | src/game/tilemapscenelayer.cpp:321-326 | The tilesets stay in the order of their keys |
| TilemapSceneLayer.TilemapSceneLayer.Tileset | src/game/tilemapscenelayer.cpp:108-127 | The loop over the tilesets finds the one the specification says |
| TilemapSceneLayer.TilemapSceneLayer.VisibleRange | src/game/tilemapscenelayer.cpp:145-178 | The code's range is the range of the formulas |
| TilemapSceneLayer.TilemapSceneLayer.Collect | src/game/tilemapscenelayer.cpp:182-215 | The nested loops group the cells of the range |
| TilemapSceneLayer.TilemapSceneLayer.PaintOne | src/game/tilemapscenelayer.cpp:225-250 | The origins of one index fit the shared array and match its count |
| TilemapSceneLayer.TilemapSceneLayer.Render | src/game/tilemapscenelayer.cpp:129-252 | A rendering draws the cells of the range; an invisible layer or one without data draws nothing |
| Atlas.CountedIffFits | src/graphics/tileset.cpp:250-254 | A tile is counted exactly when it ends inside the texture |
| Atlas.QuotientIsOdd | src/graphics/tileset.cpp:250-254 | The counts are rounded towards zero on both sides of it |
| Atlas.CellInSheet | src/graphics/tileset.cpp:192-193 | Every index is one cell of the sheet |
| Atlas.StartsStepByStep | src/graphics/tileset.cpp:262-280 | Tiles begin behind the margin, each a step of tile and spacing behind the one before |
| Atlas.CoordsInPixels | src/graphics/tileset.cpp:192-200 | In pixels a tile's rectangle begins where its column and row do and has the tile's size |
| Atlas.TileInsideTexture | src/graphics/tileset.cpp:192-200 | Every tile rectangle lies inside the texture |
| Atlas.TilesApart | src/graphics/tileset.cpp:192-200 | Different indices have rectangles that do not overlap |
| Tileset.Tileset.SetTileSize | src/graphics/tileset.cpp:107-112 | A new tile size leaves no stale coordinates |
| Tileset.Tileset.SetMargin | src/graphics/tileset.cpp:114-119 | A new margin leaves no stale coordinates |
| Tileset.Tileset.SetSpacing | src/graphics/tileset.cpp:121-126 | A new spacing leaves no stale coordinates |
| Tileset.SameObjectById | src/graphics/tileset.cpp:164-174 | Textures are one object exactly when their identities are equal, whatever their sizes |
| Tileset.Tileset.SetTexture | src/graphics/tileset.cpp:164-174 | A new texture object leaves no stale coordinates; the same one keeps tables and cache, which are stale exactly when it was reloaded at another size |
| Tileset.Tileset.Reset | src/graphics/tileset.cpp:208-289 | The tables are those of the current settings, and the empty cache has a place for every tile |
| Tileset.Tileset.Lookup | src/graphics/tileset.cpp:176-206 | A lookup gives the coordinates of the current settings, from the cache or not |
| Movement.LimitsHold | src/game/movementcomponent.cpp:89-99 | A limited velocity is within both limits exactly when they leave room, and then the nearest one within them; otherwise the second limit wins |
| Movement.Leftover | src/game/movementcomponent.cpp:81-83 | Less than one step of time is left in the accumulator |
| Movement.WholeSteps | src/game/movementcomponent.cpp:81-104 | An update takes the whole sixtieths of a second out of the accumulated time, one step for each |
| Movement.FrameRateIndependence | src/game/movementcomponent.cpp:71-105 | Two updates leave the same position, velocity and accumulator as one by the sum of their times |
| Movement.AnyFrames | src/game/movementcomponent.cpp:71-105 | However time is cut into frames, the result is the same |
| Movement.StaysWithin | src/game/movementcomponent.cpp:85-99 | Velocities stay within compatible limits over all steps |
| Movement.ClosedForm | src/game/movementcomponent.cpp:85-103 | Without limits n steps give p + nvs + as²n(n+1)/2 |
| Movement.FreeSteps | src/game/movementcomponent.cpp:81-104 | Without limits the axes move independently, each by the closed form |
| Movement.MovementComponent.Update | src/game/movementcomponent.cpp:71-105 | The loop moves the body by its whole steps; without a position nothing changes |
| FramePacing.FlushedSplits | src/game/engine.cpp:390-391 | The flush takes whole targets out and leaves less than one |
| FramePacing.SecondedKeeps | src/game/engine.cpp:368-372 | Seconds fired and the rest make the time counted, and no render is missing from the rates reported |
| FramePacing.PacedKeeps | src/game/engine.cpp:382-397 | Renders and skipped targets make the time counted; nothing is skipped when the delta is at most the target |
| FramePacing.RunKeeps | src/game/engine.cpp:336-404 | All of this holds over every run |
| FramePacing.RunSkips | src/game/engine.cpp:382-397 | A run skips no target exactly when no active frame completes two at once |
| FramePacing.PacingOfRun | src/game/engine.cpp:336-404 | Over a run there is one second event per whole second, never more renders than the time allows, and exactly as many if and only if no active frame completes two targets at once |
| PacingClock.TargetIsInverse | src/game/engine.cpp:450-454 | The target times the frame rate asked for, or 60, is one second |
| PacingClock.RunCounts | src/game/engine.cpp:352-397 | Over any run the time counted is the advance of the clock, a wait of more than an eighth of a second standing for one target; towards rendering the same of the active frames; without throttling every active frame is rendered |
| PacingClock.SecondsByClock | src/game/engine.cpp:336-372 | There is one second event for every whole second the clock advances from one target before the start, less what long waits lose |
| PacingClock.RendersByClock | src/game/engine.cpp:382-397 | The renders are the whole targets in the time of the active frames exactly when no active frame completes two at once |
| PacingClock.ActiveIsPassed | src/game/engine.cpp:352-397 | With all frames active and no long wait that is the time passed |
| FramePacing.Engine.RecalculateRenderTarget | src/game/engine.cpp:450-454 | The target is the inverse of the frame rate asked for, or of 60 |
| FramePacing.Engine.FlushRender | src/game/engine.cpp:390-391 | The flush loop leaves what the specification says |
| FramePacing.Engine.Loop | src/game/engine.cpp:325-404 | The game loop's accumulators and counters are those of the run |
| Collision.CollidingIsOverlap | src/game/collidercomponent.cpp:107-139 | The test is the overlap of the open rectangles at the simulated positions, for a box that can move |
| Collision.Mirrored | src/game/collidercomponent.cpp:107-155 | The test is symmetric, left with right and top with bottom |
| Collision.ExitsAgree | src/game/collidercomponent.cpp:436-469 | Boxes that both answer leave by opposite sides |
| Collision.ApartIffAnswered | src/game/collidercomponent.cpp:423-473 | With the old velocities the boxes are apart at the simulated positions exactly when one of them answered, also when both did |
| Collision.ApartWithNewVelocities | src/game/collidercomponent.cpp:423-473 | With the new velocities too |
| Collision.AnswerKeeps | src/game/collidercomponent.cpp:423-473 | A response keeps sizes, flags and speeds, moves the box exactly when it answers, on one axis and never on a locked one |
| CollisionLaws.AnswersIffBumps | src/game/collidercomponent.cpp:423-473 | A box answers exactly when it is active, simple and mobile, moves towards a side of the other on an unlocked axis, and reaches in least from there; otherwise it does not change |
| CollisionLaws.BumpIsAnswered | src/game/collidercomponent.cpp:436-447 | A box that bumps moving right is put back by its reach and turned round; the other sides follow by the laws below |
| CollisionLaws.BumpEndsInTouch | src/game/collidercomponent.cpp:436-447 | Put back, and with the velocity it had, it just touches a box that stays |
| CollisionLaws.StaysIffNoBump | src/game/collidercomponent.cpp:423-473 | Neither box answers a collision exactly when neither bumps into the other |
| CollisionLaws.MeetingParts | src/game/collidercomponent.cpp:247-271 | A meeting without a hit changes nothing; after a hit the boxes are apart exactly when one of them bumped into the other |
| CollisionLaws.UpdateFlips | src/game/collidercomponent.cpp:200-272 | A whole update is the same with left and right exchanged |
| CollisionLaws.UpdateTurns | src/game/collidercomponent.cpp:200-272 | A whole update is the same with the two axes exchanged |
| CollisionLaws.MeetingsFollow | src/game/collidercomponent.cpp:241-271 | An update is its meetings one after the other, each with the box as the ones before left it |
| Collision.BulletHitsFirst | src/game/collidercomponent.cpp:250-263 | A bullet hits at the first inner step at which the boxes overlap; the end of the delta is never tested |
| Collision.OthersHitAtTheEnd | src/game/collidercomponent.cpp:263-270 | A box that is no bullet is tested at the end of the delta and only there |
| Collision.MetAllKeeps | src/game/collidercomponent.cpp:241-271 | An update changes nothing of any box but its place and the signs of its velocity |
| ColliderComponent.ColliderComponent.IsColliding | src/game/collidercomponent.cpp:107-155 | The test and the sides it reports |
| ColliderComponent.ColliderComponent.Collision | src/game/collidercomponent.cpp:423-489 | The response of a simple box, and that it is reported whenever the box could respond |
| ColliderComponent.ColliderComponent.Collide | src/game/collidercomponent.cpp:265-268 | Both boxes see the collision before either answers |
| ColliderComponent.ColliderComponent.Fly | src/game/collidercomponent.cpp:250-263 | The bullet loop finds the hit the specification says |
| ColliderComponent.ColliderComponent.Update | src/game/collidercomponent.cpp:200-272 | An active collider meets every other collider of the layer in order, each once |
| SceneWalk.DepthIsFirst | src/game/scene.cpp:203-205 | The walk begins at the first blocking layer, or at the last |
| SceneWalk.WithoutOne | src/game/scene.cpp:215-216 | Removing a layer leaves the others in their order |
| SceneWalk.DeedsPushInFront | src/game/scene.cpp:100-104 | Layers pushed meanwhile stand in front of the others |
| SceneWalk.WalkResult | src/game/scene.cpp:208-218 | A walk visits its layers from last to first, each once, and removes exactly those marked before their visit, at the start or by a layer visited earlier |
| SceneWalk.UpdateResult | src/game/scene.cpp:194-219 | An update visits from the first blocking layer up to the front, removes exactly the layers marked before their visit, also by layers updated on the way, keeps the order of the rest, and is unaffected by layers pushed meanwhile |
| Scene.Scene.PushLayer | src/game/scene.cpp:100-104 | A new layer goes to the front |
| Scene.Scene.RemoveLayer | src/game/scene.cpp:118-122 | A layer is removed from the list |
| Scene.Scene.FirstBlocking | src/game/scene.cpp:199-205 | The search stops at the first blocking layer, or at the last |
| Scene.Scene.Update | src/game/scene.cpp:194-219 | The loop of an update, with list iterators that stay with their layers |
| Scene.Scene.Render | src/game/scene.cpp:172-192 | A rendering shows the layers from the first blocking one up to the front, back to front |
| Scene.ReversedAt | src/game/scene.cpp:185-191 | Each layer is rendered exactly once, in reverse order of the list |

## Left out

- Floating point: positions, times and gains are real numbers; rounding, float comparison with an epsilon and overflow of gain products beyond an `int` are not modelled.
- Integer overflow of line lengths, repeat counters and sample offsets is not modelled; where the code relies on a width (16-bit samples, 32-bit sizes, the 16-bit render counter, the 16-bit tile number) it is written out.
- Graphics, audio and input backends, platform time and sleep: the clock is a sequence of readings, the frames a device has room for are an input.
- Ogg tracks, zlib, TMX loading, Box2D and everything that calls the database: thin layers over libraries that are not part of this model.
- The shell's HTML, SQL and Tcl printers, blob printing, `output_quoted_string` and `appendText` would only add easy members beside the CSV and C printers; null cells and the header row of CSV output are left out too.
- Printing characters of 128 and above: the C escaper is modelled with the `isprint` of the C locale.
- A trailing lone backslash before `resolve_backslashes`: the code reads past the end of such a string, so it is excluded.
- Player: loading and ejecting tracks, one stream shared by two playing tracks, a device opened or closed between ticks, and an empty track played without end, on which the tick does not return. The playlist is edited in a local list during a tick and stored back at its end.
- A `BufferIO` copy of a closed or empty source leaves its own fields unset in the code; nothing is promised about them. The host is little-endian, and `char` is signed in the 8-bit mixer.
- Base64 is modelled on unsigned characters. Where `char` is signed the encoder indexes its table with negative numbers for bytes of 128 and above.
- MixResult.MixedSample: for playlists of 16-bit tracks only; `MixResult.MixedPairIsFold` covers tracks of any depths together.
- MixResult.MixedByteIsFold: for playlists without 16-bit tracks only; `MixResult.MixedPairIsFold` and `MixResult.LastByteIsFold` cover every byte of the others.
- CsvLines.RoundTripByRows: for separators made of two or more quotes and nothing else this is the only result; which fields make such a row come back by itself is not spelled out.
- Events: the list's sort is modelled as a stable merge sort by halves; with conflicting events the order another library gives may differ, and what is said about which event then waits holds for this sort. Handlers do not call `dispatch` or `execute` themselves. Events and listeners are numbers that stand for their addresses.
- Tile maps: negative or zero sizes and scales, the vertex cache and the opacity; a tileset whose tiles are larger than the map's can reach the screen from cells outside the range.
- Tilesets: settings for which the code would divide by zero or ask for arrays of negative length are excluded; names and memory are left out.
- Colliders: sphere bodies, the velocity part of the collision data, the lookup of sibling components on the first update (position and velocity are the collider's own fields, so two colliders never share one), and registration with the layer.
- Engine: initialisation, features, suspension; the frame rate asked for does not change during a run.
- Scenes: callbacks push new layers or mark layers but do not pop or remove them; a layer's flags do not change during a walk; rendering callbacks leave the list alone.
