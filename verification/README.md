# A model of flterm, dillo and Fl_OpDesk, and what is proved of it

The project models the cores of three programs and proves what they are for:

- **flterm's GTerm**, a VT100/VT52 terminal whose screen is kept behind three shortcuts (renumbered
  rows, damage intervals per row, a scroll owed to the display) and whose input is taken in
  batches. The class with the source's own fields is proved equal to a plain grid changed byte by
  byte, and its lazy display equal to a full redraw.
- **the dpip protocol of dillo**: printing tags, reading attributes back, cutting tags out of a
  stream that arrives in arbitrary pieces.
- **text search, sorting and image scaling** (findtext, dlib, fltkimgbuf).
- **the Fl_OpDesk connection graph**: three records of every link, pasting, and the order of boxes
  for code generation.
- the smaller cores of the dillo plugins: base64, escaping, bookmark sections.

Code that changes fields in place is modelled by classes and loops; each method is proved against
a function of the old state, and the lemmas beside it say what that function means. For the terminal
these are laws about bytes: `After(v, bytes)` is the terminal after the bytes, `Csi(ps, c)` is ESC [, the
parameters ps as decimal numbers, and the final character c, and `Aside` sets apart the parameters that
the parser has stored.

| files | what they hold |
|---|---|
| `TermTypes`, `TermTables`, `TermModel` | cells and grids, the transition tables, the terminal as a value |
| `TermTheory`, `TermChunks`, `TermMeaning` | its invariant, batches and chunks of input, what the actions mean |
| `TermCodes`, `TermLaws`, `TermControls`, `TermModes`, `TermVt52` | control sequences as bytes, and what each leaves in the cells and fields |
| `TermDisplay`, `GTerm` | damage and owed scrolls as values; the class |
| `Dpip`, `DpipAttr`, `DpipRoundTrip` | printing, scanning, the round trip |
| `DpipLaws` | what a tag looks like, what a query may answer on any text |
| `DpipStream`, `DpipFrames` | the stream handler, framing of built tags |
| `FindText`, `DList` | text search and its sessions; sorting and sorted lists |
| `ImgScale`, `ImgLaws`, `ImgBuf` | scaling a buffer; sums and averages pixel by pixel; buffers that follow a root image |
| `OpNet`, `OpDesk`, `OpPaste`, `OpOrder` | the graph as a value, its objects, pasting, ordering |
| `Base64`, `Bookmarks`, `Escape`, `EscapeLaws` | the plugins; escapes in literal bytes |
| `Common` | what several of them share |

## Hypotheses

The terminal results hold for every width from 2 to 199 and every height from 2 to 100. `RunOk`
names four things the source relies on and does not check: fewer than 30 parameters in a
sequence; with origin mode on, an addressed row that is on the screen; a saved cursor that is on
the screen; a top margin that is on the screen. `StepInvariant` proves these conditions exact.
Inverted and one-line margins, origin mode and inserting are inside the model.

`ExposeArea` needs `ExposureSafe`, which is proved exact. `ResizeTerminal` is defined for every
terminal; with a scroll owed, the next refresh is right if `RowsShown` holds, and the terminal is
ready for more input if `RowsKept` holds. Both hold when nothing is owed, and both are proved
exact for what they promise (see Findings). The display is an abstract grid changed only by
MoveChars, ClearChars and DrawText; two blank cells look alike if their backgrounds do, and the
cursor is an overlay on top of the grid.

The dpip stream is read without blocking. Attribute names must be plain (not empty, without quote,
space, `=` and NUL) and `Retrievable`, which is proved exact; a stream is `Sendable` if raw bytes
follow only a tag that switches. Text searches go forwards. Images are averaged with unbounded
sums and arbitrary byte-to-byte gamma maps. Pasting asks that labels are unique in a box and that
the copies are new and unconnected; the order of boxes, that the desk's records are consistent,
which every run keeps.

## Model

| member | source | states |
|---|---|---|
| GTermClass.GTerm.ProcessInput | flterm/gterm.cpp:10-31 | Any input: all bytes are consumed, and the terminal (screen, cursor, modes, parser state, parameters, replies) is the one the byte-at-a-time model reaches on a plain grid; unless updates are deferred nothing is owed and the display shows the screen. |
| GTermClass.GTerm.UpdateChanges | flterm/utils.cpp:12-89 | A lazy refresh equals a full redraw: afterwards every visible cell of the display looks like its screen cell, whatever damage and scrolls had piled up, if the undamaged cells are right once the owed move is made (which the display invariant implies); the cursor overlay is on the cursor's cell; the terminal is unchanged. |
| GTermClass.GTerm.ScrollRegion | flterm/utils.cpp:91-143 | Renumbering rows is a block move of the logical rows of the region: rows that come in are blank in the current colour, rows outside stay, and the display invariant is kept, deferred or not; a count that covers the region moves nothing, and when deferred it needs the region to be damaged. |
| GTermClass.GTerm.ShiftText | flterm/utils.cpp:145-178 | The cursor row is shifted by copying cells in the right direction; no other row changes and the display invariant is kept. |
| GTermClass.GTerm.ClearArea | flterm/utils.cpp:180-197 | Exactly the rectangle is blanked, and the display invariant is kept. |
| GTermClass.GTerm.MoveCursor | flterm/utils.cpp:205-212 | Only the cursor moves; the display invariant is kept. |
| GTermClass.GTerm.PutRun | flterm/actions.cpp:36-80 | One batch of printing characters, also in insert mode, leaves the row that the whole string leaves when put at the cursor. |
| GTermClass.GTerm.ChangeMargins | flterm/actions.cpp:333-349 | Margins change only after the owed scroll has been shown, so the display invariant survives; the new margins and cursor are those of the model. |
| GTermClass.GTerm.ExposeArea | flterm/gterm.cpp:42-47 | Lost display cells are repaired, also with a scroll owed, if no undamaged cell outside the exposed rectangle still waits for one inside it; the terminal is unchanged. |
| GTermClass.GTerm.ResizeTerminal | flterm/gterm.cpp:49-61 | What fits of the screen is kept and the rest is blank, margins and cursor are adjusted, for every terminal; the next refresh is right if the rows that stay are shown from their sources, and the display invariant holds at the new size if they keep them. |
| GTermClass.GTerm.constructor | flterm/gterm.cpp:63-87 | A new terminal is blank, valid and wholly damaged, for any contents of the display and of the new storage. |
| GTermClass.GTerm.FindOption | flterm/gterm.cpp:20-27 | The search through a transition table ends at the first entry for the byte or at the default entry, inside the table. |
| GTermClass.Session | flterm/gterm.cpp:10-31 | A run of ProcessInput calls, from a settled terminal: the terminal is that of the whole stream if line wrap is on at the cuts, and after the run the display shows the screen. |
| TermTables.PickAt | flterm/gterm.cpp:20-22 | The entry picked is the first that matches the byte exactly or is the default. |
| TermTables.LookupEntry | flterm/states.cpp:10-107 | What the automaton guarantees the actions, for every state and byte: printing happens only in the normal states and keeps them, the VT52 column state is entered only by the action that stores the row, the column action runs only there, and a digit action sees the digit itself. |
| TermTheory.StepInvariant | flterm/actions.cpp:88-535 | For every state of the terminal and every byte: the bounds that all array accesses rely on hold afterwards if and only if the byte meets its side condition. The effect of the byte is the subject of ProcessInput. |
| TermTheory.RunInvariant | flterm/actions.cpp:7-535 | Every run whose bytes meet their side conditions stays within these bounds: cursor and margins on the screen, tab stops, parameters and grid of the right sizes. The screen reached is the subject of ProcessInput. |
| TermChunks.RunBatch | flterm/actions.cpp:7-81 | A run of printing characters put at once, with the part that does not fit dropped when wrapping is off, leaves what its bytes leave one at a time. |
| TermChunks.ChunkInvariance | flterm/gterm.cpp:10-31 | However a stream is cut into calls, the terminal is the one of the uncut stream, if line wrap is on at the end of every chunk. |
| TermChunks.CutAgreesExactly | flterm/actions.cpp:7-81 | Where a stream may be cut, exactly: before a control character and at the end always; before a printing character, for every continuation behind it, if and only if the part before does not end with wrapping off and a full line, or the character is in the last column already, in the same colour. |
| TermDisplay.ScrollKeepsSync | flterm/utils.cpp:91-143 | Deferring a scroll keeps the display invariant: each undamaged cell equals the display cell that the owed move will bring, and rows whose source is outside the region are damaged. |
| TermDisplay.SettleKeepsSync | flterm/utils.cpp:21-34 | After the owed block move, and also when it is too large to be made, each undamaged cell is shown where it stands. |
| TermDisplay.ExposureExactly | flterm/gterm.cpp:42-47 | Marking the exposed rows repairs the exposure for every content of the lost cells if and only if no undamaged cell outside the rectangle waits for a cell inside it. |
| TermDisplay.ExposureGuards | flterm/gterm.cpp:42-47 | That is so when nothing is owed, the region has at most one line, or the rectangle misses the region. |
| TermDisplay.ExposureFails | flterm/gterm.cpp:42-47 | The input on which exposure fails: two rows owed a scroll by one, the lower one lost. |
| TermDisplay.FullScrollExactly | flterm/utils.cpp:97-104 | A deferred scroll by the whole region or more moves no row but is added to what is owed: the display invariant survives if and only if every visible cell of the region was damaged. |
| TermDisplay.ResizeShownExactly | flterm/gterm.cpp:49-61 | For which regions and owed scrolls the refresh right after a resize shows the screen, for every terminal in sync and with the damage the resize leaves: if and only if the move over the new region brings each row that may be undamaged from the row it was to come from. |
| TermDisplay.ResizeSyncExactly | flterm/gterm.cpp:49-61 | For which of them every terminal in sync stays in sync: if and only if these rows keep their sources, inside the new region. |
| TermDisplay.LaterShownExactly | flterm/gterm.cpp:49-61 | And that is what later refreshes need: these rows keep their sources if and only if, for every terminal in sync and every further deferred scroll, or none, the refresh shows the screen. |
| TermDisplay.ShownNotKept | flterm/gterm.cpp:49-61 | The two conditions differ: margins on rows 1 to 9 of 10 and one line owed, resized to the same height. |
| TermMeaning.InsertLineMeaning | flterm/actions.cpp:408-418 | insert_line is IL (section 8.3.67 of ECMA-48) from the cursor row to the bottom margin, for every count and cursor position. |
| TermMeaning.DeleteLineMeaning | flterm/actions.cpp:351-361 | delete_line is DL (section 8.3.32 of ECMA-48) in the same sense. |
| TermMeaning.DeleteUndoesInsert | flterm/actions.cpp:351-418 | Deleting the lines just inserted restores every row but those pushed over the bottom margin, which are blank. |
| TermMeaning.LineFeedMeaning | flterm/actions.cpp:88-95 | A line feed at or below the bottom margin scrolls the region by one line and moves nothing else; above it only the cursor moves; a one-line region does not scroll. |
| TermMeaning.DeleteCharUndoesInsert | flterm/actions.cpp:279-490 | Deleting the characters just inserted restores the row up to its last cells, which are blank. |
| TermMeaning.OneRowEdits | flterm/actions.cpp:120-513 | Character edits and erasures leave every row but the cursor's alone. |
| TermMeaning.RestoreAfterSave | flterm/actions.cpp:144-155 | After a save and any run of bytes that saves no more, a restore brings back the cursor and style of the save, and changes nothing else. |
| TermMeaning.MarginsStayOrdered | flterm/actions.cpp:181-349 | Over a whole run the top margin stays at or above the bottom one if and only if it was so before and every set_margins was given its arguments in order. |
| TermMeaning.FirstMargins | flterm/gterm.cpp:49-87 | A new and a resized terminal have their margins in order. |
| TermCodes.CsiRun | flterm/states.cpp:59-100 | ESC [, any list of up to 30 decimal parameters and a final character run that character's command with exactly these parameters, missing ones being 0. |
| TermCodes.PrivateRun | flterm/actions.cpp:202-228 | The same with a question mark, which the command sees. |
| TermLaws.CursorKeys | flterm/actions.cpp:230-260 | ESC [ n A, B, C and D move the cursor up, down, right and left by n (at least 1), as far as the screen goes, and change nothing else. |
| TermLaws.CursorAddress | flterm/actions.cpp:262-272 | ESC [ row ; column H or f: the place counted from 1 and brought into the screen, from the top margin in origin mode. |
| TermLaws.LastPlaceExcluded | flterm/actions.cpp:262-272 | So no address reaches the last column nor, outside origin mode, the last row. |
| TermLaws.EraseScreenLaw | flterm/actions.cpp:374-391 | ESC [ p J: a cell is blank in the current colours if its place is at or behind the cursor for 0, at or before it for 1, anywhere for 2; every other cell, and every field, is as it was. |
| TermLaws.EraseRowLaw | flterm/actions.cpp:393-406 | ESC [ p K: the same on the cursor row only. |
| TermLaws.EraseCharsLaw | flterm/actions.cpp:507-514 | ESC [ n X: exactly n cells from the cursor on, as far as the row goes. |
| TermLaws.InsertLinesLaw | flterm/actions.cpp:408-418 | ESC [ n L: each cell of the rows from the cursor to the bottom margin comes from n rows above, or is blank. |
| TermLaws.DeleteLinesLaw | flterm/actions.cpp:351-361 | ESC [ n M: each cell of these rows comes from n rows below, or is blank. |
| TermLaws.InsertCharsLaw | flterm/actions.cpp:480-490 | ESC [ n @: each cell of the cursor row behind the cursor comes from n columns before, or is blank. |
| TermLaws.DeleteCharsLaw | flterm/actions.cpp:279-289 | ESC [ n P: each comes from n columns behind, or is blank. |
| TermControls.ReturnLaw | flterm/actions.cpp:83-131 | Carriage return and bell, also in the middle of a VT100 sequence. |
| TermControls.LineFeedLaw | flterm/actions.cpp:88-179 | Line feed, index, next line and reverse index: the cursor moves or each row of the region comes from the next, or the one before. |
| TermControls.FormFeedLaw | flterm/actions.cpp:97-101 | Form feed blanks the region and puts the cursor on its first row. |
| TermControls.BackspaceLaw | flterm/actions.cpp:120-126 | Backspace, and what a destructive one blanks. |
| TermControls.TabLaw | flterm/actions.cpp:103-118 | Tab goes to the first stop behind the cursor; without one to the next multiple of 8; off the line, to its last column or the next line. |
| TermControls.TabStopsLaw | flterm/actions.cpp:157-478 | ESC H sets a stop at the cursor, ESC [ g takes it away, ESC [ 3 g takes all away. |
| TermControls.PrintLaw | flterm/actions.cpp:36-80 | A character on the line is written at the cursor in the current colours and style, the rest of the row stays or, in insert mode, moves by one. |
| TermControls.PrintAtEdge | flterm/actions.cpp:23-34 | Behind the last column it goes to the next line or, with wrapping off, over the last column. |
| TermControls.OverflowLaw | flterm/actions.cpp:23-81 | With wrapping off, the part of a run of characters that does not fit on the line is dropped. |
| TermControls.IgnoredControls | flterm/actions.cpp:7-22 | Control characters without an entry do nothing. |
| TermModes.ColorLaw | flterm/actions.cpp:420-469 | ESC [ codes m, for every list of codes: the last code for the foreground, and for the background, decides; bold, underline, blink and inverse are on exactly if their code stands behind the last 0; nothing else changes. |
| TermModes.NextCharacter | flterm/utils.cpp:6-10 | After ESC [ 3k m the next character has foreground k, after ESC [ 4k m background k, and no style. |
| TermModes.ModeLaw | flterm/actions.cpp:291-324 | ESC [ n h and l, with and without a question mark: which flag each number switches and which way, what is asked of the window, and that other numbers do nothing. |
| TermModes.KeypadLaw | flterm/actions.cpp:141-142 | ESC = and ESC > switch the keypad mode. |
| TermModes.SaveLaw | flterm/actions.cpp:144-155 | ESC 7 and 8, ESC [ s and u: what is saved and what comes back, the colours excepted. |
| TermModes.ResetLaw | flterm/actions.cpp:181-200 | ESC c: the screen blank, white on black; cursor, margins, tab stops and modes, and what is left alone: bold, inverse, four modes and the saved cursor. |
| TermModes.AlignLaw | flterm/actions.cpp:492-505 | ESC # 8 fills the screen with the letter E and moves nothing. |
| TermModes.CharsetLaw | flterm/states.cpp:43-57 | The choice of a character set is read over, whatever its last character. |
| TermModes.MarginLaw | flterm/actions.cpp:333-349 | ESC [ top ; bottom r: the margins, and the cursor brought between them. |
| TermModes.ReportLaw | flterm/actions.cpp:274-372 | The exact bytes that ESC [ c, ESC [ 5 n, ESC [ 6 n (row and column of the cursor, from 1) and ESC [ n x send; other status numbers send nothing. |
| TermModes.UnknownLaw | flterm/states.cpp:18-107 | Every other character behind ESC, or behind ESC [ and its parameters, ends the sequence without effect. |
| TermModes.QuoteLaw | flterm/actions.cpp:213-217 | A quote behind ESC [ sets its flag and is otherwise read over. |
| TermVt52.Vt52Keys | flterm/vt52_states.cpp:22-38 | VT52: ESC A, B, C, D move by one, ESC H goes home. |
| TermVt52.Vt52Erase | flterm/vt52_states.cpp:22-38 | VT52: ESC J and ESC K erase from the cursor on, on the screen and in the row. |
| TermVt52.Vt52Address | flterm/actions.cpp:516-533 | VT52: ESC Y row column, both counted from the space and brought into the screen, 0 excluded. |
| TermVt52.Vt52OtherLaw | flterm/actions.cpp:535-538 | VT52: the bytes of the identity, and the way back to VT100 sequences. |
| TermVt52.Vt52IndexLaw | flterm/vt52_states.cpp:22-38 | VT52: ESC I is reverse index. |
| TermVt52.Vt52IgnoredLaw | flterm/vt52_states.cpp:22-38 | VT52: every other character behind ESC is read over. |
| TermVt52.InitialMeans | flterm/gterm.cpp:63-87 | Every field and cell of a new terminal. |
| TermVt52.ResizedMeans | flterm/gterm.cpp:49-61 | Every field and cell of a resized one. |
| TermVt52.AppearanceExactly | flterm/utils.cpp:36-75 | When two cells count as looking alike. |
| Dpip.BuildCmd | dillo/dpip/dpip.c:78-121 | A format with a quote is refused; otherwise the command is the format with every %s replaced by its argument, quoted and with its quotes doubled, between `<` and ` '>`. |
| Dpip.BuiltTag | dillo/dpip/dpip.c:78-121 | A format of `name=%s` items separated by spaces prints the tag of the attribute list. |
| DpipLaws.FormatLaw | dillo/dpip/dpip.c:92-117 | What is printed for a format: the text before the first %s, then the argument between quotes with its own quotes doubled, then the rest. |
| DpipLaws.TagLaw | dillo/dpip/dpip.c:78-121 | A tag, character by character. |
| DpipLaws.StuffLaw | dillo/dpip/dpip.c:104-109 | Stuffing doubles each quote and leaves every other character alone. |
| DpipLaws.LookupLaw | dillo/dpip/dpip.c:129-181 | The answer a list owes to a query: the value of the first attribute of that name, nothing if there is none. |
| DpipLaws.GetAttrSound | dillo/dpip/dpip.c:129-181 | On any text whatever, an answer stands behind the name, which follows a space or `<`, and `=`, and ends at a quote with a space behind it. |
| DpipAttr.GetAttrL | dillo/dpip/dpip.c:129-181 | The five-state loop, the search for the closing quote and the unstuffing in place, for every tag, size and name: the value where the scanner first finds the name, NULL if it does not or the value is not closed. |
| DpipAttr.UnstuffInPlace | dillo/dpip/dpip.c:174-177 | Doubled quotes are removed in place; the writer never overtakes the reader and the result is terminated. |
| DpipRoundTrip.RoundTrip | dillo/dpip/dpip.c:78-181 | For every list of attributes with retrievable names and any values, and every name asked for, the built tag answers the value of the first attribute of that name, quotes included, and nothing for an absent name. |
| DpipRoundTrip.RetrievableNames | dillo/dpip/dpip.c:129-160 | Exactly which names can be read back: every query on the tag of one attribute is answered rightly if and only if the name has no `<`, or is a piece `x<` repeated one time less than a prime. |
| DpipRoundTrip.BlockScan | dillo/dpip/dpip.c:139-160 | How a name made of r equal pieces `x<` answers any query: it is found if and only if the query is q such pieces and q + 1 divides r + 1. |
| DpipStream.Dsh.ReadToken2 | dillo/dpip/dpip.c:378-482 | One call without blocking, the reads and the mode switch included, for every way the socket delivers: state and token are those of the function ReadToken; the status is how the reading ended, an error or end of stream being final; all bytes read, unless it was final before, are in the token and the buffer. |
| DpipStream.TokenLaw | dillo/dpip/dpip.c:453-472 | In tag mode a token is the part of the buffer up to its first end mark, before any null byte; there is none exactly if there is no such mark. |
| DpipStream.AllTaken | dillo/dpip/dpip.c:378-425 | On a connection whose readings, but for the last, only run out of bytes for now, every byte sent is accepted. |
| DpipStream.NothingTaken | dillo/dpip/dpip.c:386-425 | After an error or the end of the stream nothing more is. |
| DpipStream.NothingLost | dillo/dpip/dpip.c:378-482 | Over a session on such a connection the returned tokens and the buffer together are exactly the bytes sent. |
| DpipStream.SessionConserves | dillo/dpip/dpip.c:433-482 | Over every session the returned tokens and the buffer together are exactly the bytes received. |
| DpipStream.Framing | dillo/dpip/dpip.c:378-482 | For every stream of frames and raw bytes and every way it is sent in pieces, the tokens so far are the first frames in order, then pieces of the raw part, and the switch happens after the switching frame; on a connection that stays open all bytes sent are received. |
| DpipStream.Drained | dillo/dpip/dpip.c:433-482 | Once all has been received, one call per frame and one more return all frames and all raw bytes. |
| DpipFrames.TagIsFrame | dillo/dpip/dpip.c:78-121 | The end mark ` '>` occurs first at the very end of a built tag, whatever names and values contain. |
| DpipFrames.TagSwitches | dillo/dpip/dpip.c:467-470 | A built tag asks for raw mode if and only if an attribute whose name ends in cmd has the value start_send_page. |
| DpipFrames.EndToEnd | dillo/dpip/dpip.c:78-482 | From attribute lists to answers: tags are built, sent in any pieces over a connection that stays open, cut out of the stream and asked; every tag answers every plain name as its list does, and the rest of the tokens is the raw part. |
| FindText.CharsEqualEuclidean | dillo/dw/findtext.hh:68-70 | Equality of characters is an equivalence, which the search needs: in particular case folding and the treatment of spaces agree. |
| FindText.CharsAgree | dillo/dw/findtext.hh:68-70 | Which characters agree: with case only a character and itself; without it also a letter and its other case, and any two of the six white-space characters, and no others. |
| FindText.OccursMeans | dillo/dw/findtext.hh:68-70 | So with case the key occurs at a place exactly if the text there is the key. |
| FindText.CreateNexttab | dillo/dw/findtext.cc:176-202 | Every table entry is the longest proper border of the key's prefix under charsEqual, in at most twice as many steps as the key is long. |
| FindText.Search0 | dillo/dw/findtext.cc:224-294 | A forward search ends at the leftmost occurrence at or after the iterator, or at the end of the text if there is none, in linearly many steps. |
| FindText.FindtextState.Search | dillo/dw/findtext.cc:74-145 | One call, the recursive one included, for any remembered state: SUCCESS with the leftmost place behind the remembered one where the text is the key (letter for letter with case), RESTART with the leftmost of all if there is none behind, NOTFOUND exactly if there is none; the assert on the recursive call holds, and the highlight is on the found text. |
| FindText.FindtextState.Unhighlight | dillo/dw/findtext.cc:207-222 | The region taken off covers all of the text that was highlighted. |
| FindText.FindSession | dillo/dw/findtext.cc:74-145 | Searching n times for one key: nothing found if it does not occur; otherwise all places where the text is the key, overlapping ones included, in order, then RESTART at the first, and so on for ever. |
| DList.Partition | dillo/dlib/dlib.c:723-751 | The partition with a moving pivot stays in its range, rearranges it, and leaves two shorter parts with no element of the left above one of the right. |
| DList.QuickSort | dillo/dlib/dlib.c:723-751 | For every compare function that is a total preorder the range is a sorted permutation of itself and nothing outside it moves. |
| DList.Dlist.InsertSorted | dillo/dlib/dlib.c:767-787 | A sorted list stays sorted, with the element inserted at one place. |
| DList.Dlist.FindSorted | dillo/dlib/dlib.c:794-817 | Binary search: an element that compares equal is found if and only if there is one. |
| DList.Dlist.InsertPos | dillo/dlib/dlib.c:574-590 | The element is inserted at the place, the list growing if needed; a place outside the list is ignored. |
| ImgScale.ScaleBuffer | dillo/dw/fltkimgbuf.cc:290-327 | Each destination pixel is that of its rectangle of source pixels (ImgLaws says which and what); other rows stay. |
| ImgLaws.SplitsAcross | dillo/dw/fltkimgbuf.cc:312-319 | The sum over a rectangle is the sum over its left and its right part. |
| ImgLaws.SplitsDown | dillo/dw/fltkimgbuf.cc:312-319 | And over its upper and its lower part. |
| ImgLaws.OnePixel | dillo/dw/fltkimgbuf.cc:312-319 | The sum over one pixel is that channel of that pixel, mapped. |
| ImgLaws.PixelLaw | dillo/dw/fltkimgbuf.cc:301-326 | Each channel of a scaled pixel is the sum of that channel over the rectangle, divided by the number of pixels and rounded down, between the two gamma maps; the average lies between the smallest and the largest value. |
| ImgLaws.RowsLaw | dillo/dw/fltkimgbuf.cc:301-307 | Which rectangle belongs to which scaled pixel. |
| ImgLaws.SameSize | dillo/dw/fltkimgbuf.cc:290-327 | At its own size, without gamma, a picture stays as it is. |
| ImgLaws.TwoGreys | dillo/dw/fltkimgbuf.cc:290-327 | Two grey pixels a and b, scaled to width 1, are (a + b) / 2. |
| ImgLaws.ProgressiveLaw | dillo/dw/fltkimgbuf.cc:236-268 | Which source rows a scaled row is made of, row by row: its band, or the last source row that begins before the scaled row ends. |
| ImgScale.DownStep | dillo/dw/fltkimgbuf.cc:236-268 | The assert on sr1 and sr2 holds, and a scaled row that is passed needs only rows that have arrived. |
| ImgBuf.FltkImgbuf.ScaleRow | dillo/dw/fltkimgbuf.cc:236-268 | Which scaled rows one call computes and what they hold then, for any rows the root has: none if the row is done, all repetitions when scaling up, and when scaling down the band's row if the band is complete. |
| ImgBuf.FltkImgbuf.CopyRow | dillo/dw/fltkimgbuf.cc:328-345 | The root holds the row and every scaled buffer has taken one turn with it; rows below the image are ignored. |
| ImgBuf.FltkImgbuf.NewScan | dillo/dw/fltkimgbuf.cc:347-355 | The rows of the scaled buffers count as not computed, those of the root as arrived; no pixel changes. |
| ImgBuf.FltkImgbuf.GetScaledBuf | dillo/dw/fltkimgbuf.cc:357-401 | Asked of a root or of one of its scaled buffers, the size being capped: the root if it has this size; else the buffer that has it, if there is one; else the root again if the size is excessive; else a new buffer. Buffers up to date with the first k rows stay so. |
| ImgBuf.ExcessiveExactly | dillo/dw/fltkimgbuf.cc:66-70 | A size is excessive exactly if a side is not positive or the area exceeds 36000000. |
| ImgBuf.ProgressiveScaling | dillo/dw/fltkimgbuf.cc:236-401 | Rows arrive from top to bottom and a scaled buffer is asked for at any time: in the end it holds what row by row scaling makes of the whole image; for a height up to the image's, or a multiple of it, exactly what scaling the image at once makes. |
| ImgBuf.DownscalingIsOneShot | dillo/dw/fltkimgbuf.cc:250-265 | For a target no higher than the image, row by row scaling is scaling at once. |
| ImgBuf.UpscalingRounds | dillo/dw/fltkimgbuf.cc:245-249 | For a higher target the two take all rows from the same places if and only if the height is a multiple of the image's. |
| ImgBuf.PicturesSame | dillo/dw/fltkimgbuf.cc:236-268 | For a target no higher than the image or a multiple of its height, the picture of row by row scaling is that of scaling at once, for every image and all gamma maps. |
| ImgBuf.PicturesExactly | dillo/dw/fltkimgbuf.cc:236-268 | Without gamma, the two pictures agree for every image if and only if the height is of this kind. |
| ImgBuf.SecondScan | dillo/dw/fltkimgbuf.cc:328-355 | A second scan over a complete root: every scaled row ends at the average taken when its first new row arrived, the later rows of its band being old; at the right picture if the image is less than twice as high as the buffer. |
| ImgBuf.SecondScanExactly | dillo/dw/fltkimgbuf.cc:236-355 | Without gamma, a second scan of any image over any other ends at the right picture if and only if the image is less than twice as high as the target. |
| OpNet.ConnectedLinks | Fl_OpDesk/Fl_OpDesk.C:526-552 | What connecting answers and does: 1 exactly for a link that exists, -1 exactly for one that is refused (buttons of one kind, or either does not accept the other), both changing nothing; else 0, the new link replacing those into the input and all others staying; the records stay consistent. |
| OpNet.DisconnectedLinks | Fl_OpDesk/Fl_OpDesk.C:621-630 | Disconnecting two buttons removes the link between them, either way round, and no other. |
| OpNet.ButtonDisconnectedLinks | Fl_OpDesk/Fl_OpButton.C:252-256 | Disconnecting a button removes exactly the links it is an end of. |
| OpNet.BoxDeletedLinks | Fl_OpDesk/Fl_OpDesk.C:636-698 | Disconnecting a box removes exactly the links with an end at it; deleting it, its buttons besides. |
| OpNet.ButtonAddedLinks | Fl_OpDesk/Fl_OpButton.C:31-50 | A new button is connected to nothing and changes nothing else. |
| OpNet.RemoveLaw | Fl_OpDesk/Fl_OpDesk.C:604-614 | Erasing entries from a list keeps all others, in order. |
| OpNet.RunConsistent | Fl_OpDesk/Fl_OpDesk.C:502-698 | Over every run of new buttons, connections, all four kinds of disconnecting and deleted boxes: a link is on the desk if and only if each button lists the other, goes from output to input, occurs once, and is the only one of its input. |
| OpNet.AllGone | Fl_OpDesk/Fl_OpDesk.C:651-658 | After disconnecting all, the desk has no link and no button lists another. |
| OpNet.ButtonDeleted | Fl_OpDesk/Fl_OpButton.C:52-57 | A button deleted on its own leaves the records consistent if and only if it was connected to nothing. |
| OpDesks.OpDesk.Connect | Fl_OpDesk/Fl_OpDesk.C:526-552 | Desk and buttons telling each other reach exactly the net of Connected, for either order of the buttons, and answer 1, -1 or 0 as ConnectedLinks says; a refusal, on whichever side, restores the state exactly. |
| OpDesks.OpDesk.Disconnect | Fl_OpDesk/Fl_OpDesk.C:621-630 | All three records lose the pair, in both directions, keep their order otherwise, and the count is what the desk lost. |
| OpDesks.OpDesk.DisconnectBox | Fl_OpDesk/Fl_OpDesk.C:636-648 | Exactly the links with an end at the box go, though the list shrinks under the loop. |
| OpDesks.OpDesk.DeleteBox | Fl_OpDesk/Fl_OpDesk.C:692-698 | The box goes with its buttons and links from desk, boxes and clipboard, and the rest stays consistent. |
| OpDesks.OpDesk.NewButton | Fl_OpDesk/Fl_OpButton.C:31-50 | A new button joins its box unconnected, and the records stay consistent. |
| OpDesks.OpButton.ConnectTo | Fl_OpDesk/Fl_OpButton.C:212-231 | When either side refuses, the first half of the connection is taken back; otherwise the input drops its old link first. |
| OpDesks.OpButton.DisconnectAll | Fl_OpDesk/Fl_OpButton.C:252-256 | The loop over the shrinking list removes exactly the links of the button, everywhere. |
| OpPaste.CopyConnections | Fl_OpDesk/Fl_OpDesk.C:795-865 | Exactly the images of the links among the originals are added, as far as they are accepted, and nothing else changes; lists of different length are ignored. |
| OpPaste.PasteMeans | Fl_OpDesk/Fl_OpDesk.C:795-865 | After a paste the links are the old ones and the accepted images, and an image is there if and only if its original is. |
| OpPaste.PasteIsIsomorphism | Fl_OpDesk/Fl_OpDesk.C:795-865 | If all images are accepted, two copied buttons list each other if and only if the originals do. |
| OpOrder.GetBoxesSorted | Fl_OpDesk/test-app/test-app.C:575-592 | The walk terminates on every graph, cycles included, adds boxes once each and, without cycles, each after all boxes that feed it. |
| OpOrder.GetBoxesSortedLeftToRight | Fl_OpDesk/test-app/test-app.C:595-614 | Every box at most once; and every box after all that feed it, with none missing, if and only if the graph has no cycle. |
| Base64.StripIllegalChars | dillo/dpi/datauri.c:40-52 | Exactly the legal characters stay, in order, in place. |
| Base64.B64Decode | dillo/dpi/datauri.c:54-110 | Decoding in place equals decoding a copy, though the result overwrites the input, and is terminated. |
| Base64.DecodeEncode | dillo/dpi/datauri.c:54-110 | Decoding inverts the encoding of section 4 of RFC 4648 for every byte string, padding included. |
| Base64.AlphabetLaw | dillo/dpi/datauri.c:40-76 | The alphabet in literal characters, and which characters are legal: its 64 and `=`. |
| Base64.Vectors | dillo/dpi/datauri.c:54-110 | The encoding that decoding inverts agrees with the test vectors of section 10 of RFC 4648. |
| Base64.DecodeUri | dillo/dpi/datauri.c:40-110 | Stripping and decoding any text that is an encoding with illegal characters interspersed gives back the bytes. |
| Base64.StripInterspersed | dillo/dpi/datauri.c:40-52 | What stripping leaves is a if and only if the text is a with illegal characters interspersed. |
| Bookmarks.Store.Normalize | dillo/dpi/bookmarks.c:648-674 | Renumbering the sections one after the other in place equals renumbering all at once: sections become 0, 1, 2, ... and every bookmark moves at most once; the counters stay, but for the section that is added to none. |
| Bookmarks.StaysInSection | dillo/dpi/bookmarks.c:648-674 | A bookmark is in a section afterwards if and only if it was in it before, or it had no section and its number was that of the section's place. |
| Bookmarks.MembershipExactly | dillo/dpi/bookmarks.c:648-674 | Renumbering keeps every bookmark in its section and out of the others if and only if the number of each bookmark without a section is too large for a place. |
| Bookmarks.StaleTarget | dillo/dpi/bookmarks.c:589-674 | The input on which it fails: a bookmark moved to the number of a deleted section. |
| Bookmarks.NormalizedTwice | dillo/dpi/bookmarks.c:648-674 | Renumbering again moves no bookmark. |
| Bookmarks.Store.SecDel | dillo/dpi/bookmarks.c:564-584 | A section goes with exactly its bookmarks, deleted key by key; numbers and keys stay ascending, and each counter begins again exactly when its last entry has been deleted. |
| Bookmarks.WithoutSectionLaw | dillo/dpi/bookmarks.c:576-580 | Exactly the bookmarks of the section are left out; the others stay in order. |
| Bookmarks.Store.Add | dillo/dpi/bookmarks.c:518-528 | A bookmark is appended under the next key, its address and title escaped. |
| Escape.HtmlRoundTrip | dillo/dpi/dpiutil.c:93-139 | Unescaping inverts escaping, for every string. |
| Escape.EscapedIsSafe | dillo/dpi/dpiutil.c:93-109 | Escaped text holds none of the characters `<`, `>`, `"` and `'`, and `&` only to begin an entity. |
| Escape.UriRoundTrip | dillo/dpi/dpiutil.c:36-81 | Exactly which escape sets lose nothing: unescaping inverts escaping for all strings if and only if the set contains `%` or all hexadecimal digits. |
| Escape.DefaultRoundTrip | dillo/dpi/dpiutil.c:36-81 | The default set loses nothing. |
| EscapeLaws.HtmlCharacters | dillo/dpi/dpiutil.c:84-109 | What is written for each character, in literal bytes: five entities, and every other character as it is. |
| EscapeLaws.EntityRead | dillo/dpi/dpiutil.c:115-139 | An entity in letters of any case is read as its character. |
| EscapeLaws.CharacterRead | dillo/dpi/dpiutil.c:115-139 | What does not begin with an entity is read as it stands. |
| EscapeLaws.UriCharacters | dillo/dpi/dpiutil.c:36-58 | Control characters, delete, every byte from 128 on and the set become % and two digits; every other character stays. |
| EscapeLaws.UriRead | dillo/dpi/dpiutil.c:64-81 | % and two hexadecimal digits in either case are read as the byte of that value, all else as it stands. |
| Escape.EscapeHtmlStr | dillo/dpi/dpiutil.c:93-109 | The loop computes the escaped text that the lemmas speak of. |
| Escape.UnescapeHtmlStr | dillo/dpi/dpiutil.c:115-139 | Likewise for unescaping entities, also when the string has none. |
| Escape.EscapeUriStr | dillo/dpi/dpiutil.c:36-58 | Likewise for percent escapes; bytes from 128 on, control characters and those of the set are escaped. |
| Escape.UnescapeUriStr | dillo/dpi/dpiutil.c:64-81 | The copy is overwritten from its start while the original is read, and is terminated. |

## Findings

Properties one would expect that the code does not have, with the lemma that gives the exact
condition or the failing input:

- Names with a `<` defeat attribute lookup: the tag of `x<y` answers the query `y`
  (`DpipRoundTrip.RetrievableNames`, `UnevenName`, `CompositeName`).
- Exposure with a scroll owed marks screen rows, although what was lost are display rows; a row
  that still waits for the lost one is then drawn wrongly (`TermDisplay.ExposureFails`,
  `ExposureExactly`).
- A resize with a scroll owed moves the bottom margin under it: the next refresh may be wrong
  (`TermDisplay.ResizeShownExactly`), and where it is right, one after more scrolling may be wrong
  (`LaterShownExactly`, `ShownNotKept`).
- A deferred scroll by a whole region would be owed without moving a row
  (`TermDisplay.FullScrollExactly`); no action asks for one.
- With line wrap off, cutting the input behind a full line changes the last column
  (`TermChunks.CutAgreesExactly`).
- The four side conditions of `TermTheory.StepInvariant` are not checked by the source; where one
  fails the cursor, a margin or the parameter counter leaves its range.
- No cursor address reaches the last column, nor outside origin mode the last row: coordinates are
  brought below the size before one is subtracted (`TermLaws.LastPlaceExcluded`). In VT52 mode the
  first row and column are out of reach instead (`TermVt52.Vt52Address`).
- A top margin below the bottom one is accepted (`TermMeaning.MarginsStayOrdered`); a region of one
  line does not scroll (`TermMeaning.LineFeedMeaning`).
- Upscaling row by row makes other pictures than scaling at once, unless the height is a multiple
  (`ImgBuf.PicturesExactly`, `UpscalingRounds`).
- A second scan leaves scaled rows that mix two images when the image is at least twice as high as
  the buffer (`ImgBuf.SecondScanExactly`, `LitDiffers`): newScan clears the marks of the scaled
  buffers only.
- An escape set without `%` loses strings unless it holds all hexadecimal digits
  (`Escape.UriRoundTrip`, `RawPercent`); `Bms_add` stores addresses with such a set
  (dillo/dpi/bookmarks.c:525).
- Renumbering adopts bookmarks that have been moved, or added, to a number no section has, when a
  section gets that number as its place (`Bookmarks.MembershipExactly`, `StaleTarget`); bookmarks of
  a deleted section are deleted with it.
- A graph with a cycle has no complete order of boxes; the walk returns one that is not ordered or
  not complete (`OpOrder.GetBoxesSortedLeftToRight`).
- `Fl_OpDesk::Disconnect` of a box returns 0 whatever it removes (`OpDesks.OpDesk.DisconnectBox`).
- The destructor of Fl_OpButton says it disconnects, and does not: deleting a connected button
  breaks the records (`OpNet.ButtonDeleted`). In the model buttons go with their box, after its
  links.
- The storage of a new terminal is cleared only for the size of a pointer (flterm/gterm.cpp:71-73);
  the constructor's contract holds for any contents.

## Left out

- TermModel.DoParamDigit: parameters are unbounded integers; the int of the source may overflow on a parameter of more than nine digits.
- TermTypes.CalcColor: attributes are a record, not packed into 16 bits.
- GTermClass.GTerm.UpdateChanges: the guard against recursive updates (`doing_update`) and the drawing of Fl_Term itself are not modelled.
- GTermClass.GTerm.PrintInput: the source may look at the byte behind the input when a batch ends there; the model does not read it.
- GTermClass.GTerm.ResizeTerminal: a resize between the two halves of a VT52 cursor address requires the stored row to be on the new screen.
- ImgBuf.ProgressiveScaling: for other heights above the image's the result is that of row by row scaling, because scaling at once differs (PicturesExactly).
- ImgBuf.PicturesExactly: states the only-if direction without gamma, because a constant map hides every difference.
- ImgBuf.SecondScanExactly: states the only-if direction without gamma, because a constant map hides every difference.
- ImgScale.ScaleBuffer: the gamma tables are arbitrary maps; their computation by pow is not modelled.
- DpipStream.Dsh.ReadToken2: calls with blocking on are not modelled, nor the socket; what a read delivers is a parameter.
- DpipRoundTrip.RetrievableNames: exact for a tag of one attribute; in a longer list an earlier attribute may hide a wrong answer, so RoundTrip goes one way there.
- GTermClass.GTerm.ShiftText: the row is the cursor's and the end column the last, as in all calls of the source.
- FindText.CreateNexttab: the table of the reversed key, for backward search, is not modelled.
- FindText.FindtextState.Search: forwards only.
- FindText.Search0: backward search, and switching the direction under one key, are not modelled.
- FindText.CharIterator.Next: the iterator is an index into a fixed text; the widgets behind it are not modelled.
- OpDesks.OpDesk.Connect: the error message, and the form that looks buttons up by label first, are left out.
- OpDesks.OpButton.ConnectTo: called as the desk calls it; a direct call for a pair the desk has not noted is not modelled.
- OpDesks.OpDesk.DeleteBox: widgets and redrawing are left out; buttons are not deleted on their own.
- OpPaste.CopyConnections: colour and width of connections are not copied in the model.
- Bookmarks.Store.Normalize: records are values in a sequence, so sharing of record pointers is not captured; files and pages are left out.
- TEXTONLY mode, the Reset entry point of the terminal, and keyboard input.
- Drawing, layout, event handling and files of all three programs; authentication, sockets and processes of dillo.
