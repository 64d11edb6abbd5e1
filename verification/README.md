# Verification of the media player's stateful cores

This project models four parts of the firmware and proves what they are for. Each part is
C code that changes structs, lists and buffers step by step, driven by periodic tasks,
interrupt callbacks and network callbacks; the user interface, the drivers and the vendor
libraries appear as parameters whose values are arbitrary.

- **Streaming playback** (`RefillControl`, `StreamRing`, `JmvLayout`, `AudioFifo`,
  `JmvPlayer`, `JmvLife`). A file goes through a ring that a periodic task refills half by
  half while a decoder reads it. A JMV movie is read at two places of the same ring, images
  at one and audio ahead of it at the other, and the audio goes through a FIFO that the DMA
  interrupt drains in the middle of everything else. `JmvLife` puts the process task, the
  interrupt, the buffer task, the user's buttons and the slider together, from opening a
  movie on.
- **File operations** (`OpForest`, `OpItems`, `OpScan`, `OpScanTask`, `OpWalks`, `OpClean`,
  `OpFileTask`). Selected entries are scanned into a forest of nodes linked by first child,
  next sibling and parent, one directory entry per tick, while the walk that asks for the
  scans goes through the forest being built. The forest is then copied in pre-order or
  deleted in post-order. Nodes live in a growing sequence, and a pointer is an index into it.
- **JPEG codec hand-over** (`JpegCodec`). Two input and two output slots between the main
  loop and the peripheral's interrupts, with full flags, one-bit indices and pause and
  resume. The main loop is cut into its single steps, and callbacks come between any two.
- **FTP** (`FtpClient`, `FtpTransfer`, `Decimal`, `Passive`, `ListLine`). The client's
  session as a state machine over its callbacks, with every command and reply in a log; the
  block-buffered transfers of both sides; and the two texts both of whose ends are in this
  repository, the reply to PASV and the lines of LIST.

`Bytes` holds memcpy and facts about copied bytes. `PlayerWitnesses`, `OpWitnesses` and
`NetWitnesses` run the models to states in which they fail what they promise: for each
condition below there is one run that does not meet it, named behind "see".

What the proofs say about the code beyond what its authors may expect:

- The buffer task returns at the end of the file before it clears `empty`, so a starved
  player is resumed exactly if the refill it waits for ends before the end of the file
  (`StarvedResumesIff`; see `StarvesForGood`).
- The reader's guard is exact unless the 32-bit sum wraps (`GuardExact`); then it lets
  through a request for more than a whole ring (`FillReadBuf`), see `ReadsOutside`.
- A seek's position survives a run of the buffer task exactly if no half refill is in flight
  (`SeekSurvives`); the fill that follows would otherwise start behind it, see
  `SeekIsLost`. A seek in the middle of a fill, which only the JMV reader refuses, leaves
  the fill sound exactly if it does not move (`SeekInFill`), see `SeekSpoilsFill`.
- A decode leaves the read cursor up to 31 bytes too far unless the image size is a multiple
  of 32 (`StartJpeg`). The next decode puts it back (`CatchUp`), but an audio fill before that
  appends the packet of its frame exactly if it is not too far (`FillAudioFifo`), see
  `PacketsAstray`. A fill keeps the audio in order exactly if besides the video is not ahead of
  the audio, for which it is enough that there was at most one underrun or retry.
- A restart that does not find playback waiting is aligned exactly at frame 0 (`Restart`): a
  user who pauses, moves the slider and presses play before the first frame gets positions
  from the start of the movie and bytes from the frame sought, see `RestartsMisaligned`.
- Priming is not protected from interrupts that come while the movie plays on. The unsigned
  count of the FIFO wraps exactly if two packets are not loaded, see `StartsShort`, or such an
  interrupt comes after the first packet is counted and before the two are subtracted, see
  `StartsInterrupted`; earlier ones only advance the clock (`Prime`, `FirstPass`).
- A seek while the first image is decoded moves the positions and the file position, but not
  the FIFO and the place the next decode expects. After the fill all is as it should be
  exactly if the three positions were those of the frame sought already, and no restart had
  moved the frames (`SeekWhileDecoding`, `SeekPass`), see `SeeksInFirst`.
- When the first image times out with the ring marked empty, the fill that follows is right
  exactly if the file position is the place the next decode expects (`WaitPass`). When it
  starts behind that place, the image still arrives exactly if its bytes before the fill are
  at the other end of the ring (`ImageAfterRefill`, `ResyncBehind`), see `WrongImage`.
- The sum of sizes is set back between the selection and the paste, so the check for free
  space leaves the selected files themselves out: `bytes + FileBytes(roots)` is what the paste
  will store (`Run`), and a selection of files only is never refused (`FilesNeverLow`).
- The branch for too little space starts the file task in DELETE: all sources are then
  deleted and none is copied (`RunToEnd`), even by a copy, see `CopyDeletes`. It compares with
  the free space exactly if the number of free sectors fits a 32-bit word (`SpaceExact`); with
  2 TiB free the product wraps and a copy with room to spare is refused, see `RoomDeletes`.
  Writes that
  store fewer bytes than asked are not noticed, so a copy equals its source exactly if none
  was short (`GoneHasCopy`), see `MoveLoses`.
- If the user cancels a deletion, cleaning the forest comes to a node that was given back
  before, unless the deletion stands on the line of first children (`Clean`, `End`), see
  `CancelUnsound`.
- A callback of the JPEG peripheral that comes after one that used a part of its window
  makes the next window start too early; without one, the order is kept (`InStep`), see
  `WindowSlips`.
- STOR's answer 150 uses the data pcb without a check, so a data connection lost before it
  leads through a null pointer (`ControlProcess`, `AskedReply`), see `GoesAstray`. After the
  data connection ends the client sends QUIT and goes back to its logged-in state, from where
  it may send QUIT again, see `QuitsTwice`; nothing else follows a QUIT (`Obeys`).
- An upload turn that finds no room in the send buffer ends the transfer (`Upload.Run`), see
  `EndsWithoutRoom`, and an upload sends exactly the file if the last one did not leave its
  buffer in use (`StartsRight`), as a cancelled one does, see `BeginsStale`.
- A listing's date arrives exactly if the line shows the year; the name arrives exactly if it
  does not begin with a blank (`DateArrives`, `NameArrives`), see `DateIsLost` and
  `NameIsCut`.
- The search for a passive port ends exactly if some port is free (`SearchEnds`), see
  `SearchesOn`.

Assumptions: FatFs reads deliver what is left of the file up to the size asked; a directory
scan reports its end with an error code, as the scan states expect (with an empty name and
`FR_OK` they would wait forever), and no entry name is empty; a node list is not empty when
the file task starts; source paths have at least the three characters of a volume root. Of
movie files, of which the player checks none: the header counts as many frames as the vector
has, no offset wraps, the file is complete and ends no later than one packet behind the last
frame, a packet has at least 32 bytes, and packet and image of a frame fit half the ring.
The size of the DMA buffer, twice the byte rate by the frame rate, is even.
Network segments are at most 2273 bytes, one connection stores at a time, and replies come
after the connection is established.

## Model

| member | source | states |
|---|---|---|
| RefillControl.TickKeeps | Common/Src/lv_file_player.c:615-709 | every run of the buffer task keeps the cursor invariant of the half-ring protocol (unread bytes fit the ring, full and empty stay distinct, the phase of the halves matches the cursors) and never moves the reader |
| RefillControl.TickWritesFree | Common/Src/lv_file_player.c:674-688 | a chunk is read exactly when a refill is in progress, lands right behind the last unread byte inside the ring, and on no unread byte |
| RefillControl.PlaybackLaw | Common/Src/lv_file_player.c:628-707 | a run of the task changes the playback in two ways only: a player that ran dry while playing is paused, and it is resumed, and no longer marked empty, exactly when the refill it waits for is complete below the end of the file |
| RefillControl.PlaysOn | Common/Src/lv_file_player.c:628-707 | while the reader finds enough, playback goes on unchanged through any number of runs of the task |
| RefillControl.FailedRead | Common/Src/lv_file_player.c:628-686 | a run whose read fails moves no cursor, and pauses the player exactly if it ran dry while playing |
| RefillControl.FillStepKeeps | Common/Libraries/audiolib/flac_lib.c:193-221 | the decoder's own fill keeps the invariant and never reads past the ring |
| RefillControl.AdvanceKeeps | Common/Libraries/audiolib/flac_lib.c:412-445 | reading below the producer cursor keeps the invariant, wherever the two halves are |
| RefillControl.AheadTickKeeps | Common/Src/lv_file_player.c:634-672 | a run of the task that sees the cursor up to half a ring ahead of a reader keeps the ring right for the reader, or, when it requests a half the reader has not left, for a reader at the cursor, with more than half a ring loaded |
| RefillControl.NoDeadlock | Common/Src/lv_file_player.c:634-672 | when at most half a ring is refused for lack of data and the file goes on, a refill is in progress or the very next tick requests one |
| RefillControl.RefusedIsServed | Common/Src/lv_file_player.c:634-707 | from every ready state some number of runs grants a refused request of at most half a ring, or loads the file to its end |
| RefillControl.RefillResumes | Common/Src/lv_file_player.c:674-706 | a refill that ends before the end of the file leads, after finitely many ticks, to the request to resume |
| RefillControl.RefillStuck | Common/Src/lv_file_player.c:621-625 | once the awaited refill reaches the end of the file, no number of ticks clears the empty flag or resumes |
| RefillControl.StarvedResumesIff | Common/Src/lv_file_player.c:621-707 | a starved player is resumed by some number of ticks if and only if the position plus what its refill still owes is below the file size |
| RefillControl.GuardExact | Common/Libraries/audiolib/flac_lib.c:412-417 | the 32-bit guard refuses exactly the requests that reach the producer cursor if and only if the sum does not wrap |
| StreamRing.TurnIsMod | Common/Libraries/audiolib/jmv_lib.c:615-630 | the cursor kept by wrapping at the ring's end is the distance from the last fill modulo the ring size |
| StreamRing.ReadHolds | Common/Libraries/audiolib/flac_lib.c:419-443 | of what a read takes around the end of the ring, all that is loaded are the next bytes of the file |
| StreamRing.ChunkPlaced | Common/Src/lv_file_player.c:674-688 | a refill chunk keeps every unread byte p of the file at ring index (p - base) mod size |
| StreamRing.Stream.BufferTask | Common/Src/lv_file_player.c:615-709 | one run of the task computes the protocol step, whatever the outcome of the read, and keeps the ring filled with the right bytes for a reader at or somewhat behind the cursor; what the step does to the playback is `PlaybackLaw` |
| StreamRing.Stream.FillReadBuf | Common/Libraries/audiolib/flac_lib.c:408-448 | a guarded read is refused when it would reach the producer cursor, then changing only the empty flag, delivers the next bytes of the file when it would not, and passes unloaded exactly when the 32-bit sum wraps past the guard |
| StreamRing.Stream.CopyOut | Common/Libraries/audiolib/jmv_lib.c:698-731 | the unguarded read delivers the file's bytes and moves both cursors |
| StreamRing.Stream.CopyOver | Common/Libraries/audiolib/jmv_lib.c:698-731 | a read of more than is loaded delivers the loaded part and leaves the ring right for a reader behind that part |
| StreamRing.Stream.Fill | Common/Libraries/audiolib/flac_lib.c:170-223 | the decoder's fill restarts the cursors at the file position, and goes on with an empty ring only from the end of the file |
| StreamRing.Stream.FillUp | Common/Libraries/audiolib/flac_lib.c:170-223 | the fill as a whole ends with a full ring, or the file loaded to its end, from the file position on, not marked empty and with the playback as it was |
| StreamRing.ResyncLands | Common/Libraries/audiolib/jmv_lib.c:592-603 | in 32-bit arithmetic, a cursor is put to any place the ring was filled for, ring index included, when it is no more than a ring away |
| StreamRing.ResyncBehind | Common/Libraries/audiolib/jmv_lib.c:592-603 | after a correction to a place before the last fill, the bytes read are the file's if and only if those before the fill happen to be at the other end of the ring, where a full ring has the bytes one ring further on |
| StreamRing.Stream.Do | Common/Src/lv_file_player.c:615-709 | each step of a session, playback changes included, delivers exactly the file between the old and the new read position, all that was asked when it is loaded |
| StreamRing.Stream.Life | Common/Libraries/audiolib/flac_lib.c:170-310 | from the first fill on, with playback started, paused, resumed and stopped, seeks, fills, task runs and reads in any order, what is delivered between two fills is the file in order from the position of the first |
| RefillControl.SeekSurvives | Common/Src/lv_file_player.c:674-688 | the position a seek has set survives a run of the buffer task if and only if no half refill is in flight |
| RefillControl.SeekInFill | Common/Libraries/audiolib/flac_lib.c:312-325 | a seek in the middle of the fill leaves the fill sound if and only if it does not change the file position |
| StreamRing.Stream.Session | Common/Libraries/audiolib/flac_lib.c:408-448 | under any interleaving of task runs, playback changes and reads, the bytes delivered are the file in order |
| StreamRing.Stream.ReadThrough | Common/Libraries/audiolib/flac_lib.c:408-448 | a reader of at most half a ring at a time, with a run of the task whenever it is refused, gets the file in order to its end, but for less than one request more |
| JmvLayout.OffOrdered | Common/Libraries/audiolib/jmv_lib.c:463-468 | the prefix sums over the frame vector order the frames |
| JmvLayout.AudioAt | Common/Libraries/audiolib/jmv_lib.c:648-696 | the n-th packet of the audio at a list of file positions is the packet at its n-th position |
| JmvLayout.AudioPrefix | Common/Libraries/audiolib/jmv_lib.c:648-696 | the first n packets of the audio at a list of positions are the audio at its first n positions |
| JmvLayout.StartsOn | Common/Libraries/audiolib/jmv_lib.c:648-696 | a list of positions goes on being those of consecutive frames if and only if the next frame's position comes next |
| AudioFifo.Fifo.Take | Common/Libraries/audiolib/jmv_lib.c:542-549 | the bytes taken out of a FIFO in order are the next of those put in, across the end of the buffer; out of order, the copy stays inside the buffer |
| AudioFifo.Fifo.Subtract | Common/Libraries/audiolib/jmv_lib.c:306-312 | the subtraction behind the unchecked copy leaves the FIFO in order when enough was there and nothing was taken meanwhile, and otherwise a wrapped count larger than the FIFO |
| AudioFifo.Fifo.Stage | Common/Libraries/audiolib/jmv_lib.c:675-685 | the split copy appends the next bytes of the file behind the bytes in the FIFO, without touching an unread one or the count |
| AudioFifo.Fifo.Publish | Common/Libraries/audiolib/jmv_lib.c:687-689 | the count grows by what was copied in, and the order of the bytes is kept |
| JmvPlayer.Player.TransferCallback | Common/Libraries/audiolib/jmv_lib.c:534-582 | an interrupt at any point of a fill plays the next queued packet into its half of the DMA buffer, or silence when there is none, leaves the other half alone, and advances the clock |
| JmvPlayer.Player.AudioOffset | Common/Libraries/audiolib/jmv_lib.c:658-662 | the summing loop gives the distance from the image cursor to the audio wanted |
| JmvPlayer.Player.FillAudioFifo | Common/Libraries/audiolib/jmv_lib.c:648-696 | with interrupts between check, copy and count, a fill appends exactly one packet if there is room and data, and restores both cursors; it is the packet of its frame if and only if the cursor is not ahead of its place, and keeps the order if and only if besides the video is not ahead of the audio |
| JmvPlayer.Player.SkipLate | Common/Libraries/audiolib/jmv_lib.c:605-619 | with the clock going on in every turn, late frames are discarded exactly up to the clock, or up to the first that is not loaded or not there |
| JmvPlayer.Player.DecodeFrame | Common/Libraries/audiolib/jmv_lib.c:584-646 | wherever the cursor was left, and even behind the last frame, the image of the clock's frame is started exactly if that frame exists and is loaded, and the codec is handed precisely its bytes |
| JmvPlayer.Player.StartJpeg | Common/Libraries/audiolib/jmv_lib.c:621-645 | the codec gets the payload of frame video_pos, and the cursor goes to the next frame and by the padding further on |
| JmvPlayer.Player.CatchUp | Common/Libraries/audiolib/jmv_lib.c:592-603 | a cursor too far by the padding of the last image is put back to its frame, and the ring stays right, whatever the buffer task has requested in between |
| JmvPlayer.Player.Seek | Common/Libraries/audiolib/jmv_lib.c:452-486 | a seek puts all positions at the frame of the percentage and the file position at its prefix sum, unless a fill is in progress |
| JmvPlayer.Player.Restart | Common/Libraries/audiolib/jmv_lib.c:273-300 | after a restart the positions match the read cursor if and only if playback waits or the frame sought is the first; interrupts behind the positions only advance the clock |
| JmvPlayer.Player.SeekWhileDecoding | Common/Libraries/audiolib/jmv_lib.c:452-486 | after a seek while the first image is decoded and the fill that follows, with any interrupts in between, the player is as it should be if and only if the clock, the video and the FIFO were at the frame sought before, and that frame where the frame vector puts it |
| JmvPlayer.Player.CopyToDma | Common/Libraries/audiolib/jmv_lib.c:306-312 | with interrupts in every turn, the copy fills the DMA buffer with the two packets if the FIFO holds both and no playing interrupt comes; otherwise the count wraps |
| JmvPlayer.Player.Prime | Common/Libraries/audiolib/jmv_lib.c:269-312 | with interrupts behind the reset, in both fills and in every turn of the copy: the DMA buffer starts with the audio of two frames if and only if it is loaded and no playing interrupt comes between the count of the first packet and the subtraction, and otherwise the count wraps; it is the audio of the frame sought and the next if and only if playback waits or the frame is the first |
| JmvPlayer.Player.ProcSamples | Common/Libraries/audiolib/jmv_lib.c:379-418 | while playing, a step fills the FIFO when there is room and data, and starts the image of the clock's frame when it is due and loaded, leaving the player starved when it is not; behind the last frame it stops playback |
| JmvPlayer.Player.ImageAfterRefill | Common/Libraries/audiolib/jmv_lib.c:353-372 | after a first frame that timed out into a new fill, the image expected arrives if and only if its bytes before that fill are at the other end of the ring |
| JmvLife.Lib.FirstPass | Common/Libraries/audiolib/jmv_lib.c:272-319 | the first frame leaves the invariant, primed and decoding, if and only if two packets are loaded and no playing interrupt comes between the count of the first and the subtraction; otherwise it leaves a count larger than the FIFO; the image of the clock's frame, without interrupts the first, is started |
| JmvLife.Lib.WaitPass | Common/Libraries/audiolib/jmv_lib.c:321-372 | with its image there playback starts unless it waits; a timeout decodes on, starting the image of the clock's frame if it is loaded, and goes to a new fill exactly if the ring is marked empty; that fill keeps the invariant if the file position is the place the next decode expects, and otherwise starts behind it |
| JmvLife.Lib.SamplesPass | Common/Libraries/audiolib/jmv_lib.c:376-448 | while playing, a pass queues the next packet exactly if there is room and it is loaded, and starts the image of the clock's frame exactly if it is due and loaded; pause leads to waiting, resume to playing, and nothing else changes; the invariant is kept |
| JmvLife.Lib.SeekPass | Common/Libraries/audiolib/jmv_lib.c:452-486 | a seek outside a fill sets all positions and the file position; it keeps the invariant, while the first image is decoded exactly if the positions were there already and no restart had moved the frames |
| JmvLife.Lib.BufferPass | Common/Src/lv_file_player.c:615-709 | a run of the buffer task keeps the invariant unless it goes on with a refill between a seek and its fill, which moves the file position the fill was to start from; all else is the step of the protocol |
| JmvLife.Lib.Live | Common/Libraries/audiolib/jmv_lib.c:134-486 | in any life of a movie, from opening it through fills, first frames, playing, pauses and seeks with interrupts anywhere: what was taken out, followed by what is in the FIFO, is the audio at the queued positions; from a restart that found playback waiting it is the movie's from the frame sought, in order, as long as sizes are aligned and underruns and retries stay below two; and the audio is two packets ahead of the clock less the underruns |
| JmvLife.Lib.Turn | Common/Libraries/audiolib/jmv_lib.c:379-418 | a pass and then an interrupt while playing: there is no underrun if and only if the FIFO held a packet or the next one is loaded, and a due image that is loaded is started |
| JmvLife.Lib.PlayOut | Common/Libraries/audiolib/jmv_lib.c:379-418 | a movie with aligned sizes that is loaded to its end plays to its last frame, one pass and one interrupt after the other: no image is left out, all audio is taken out in order, and no interrupt but the two behind the last packet finds the FIFO short |
| JmvLife.PlayWhole | Common/Libraries/audiolib/jmv_lib.c:134-448 | a movie with aligned sizes that the ring holds whole is played whole, from opening it through the fill and the first frame to the last packet and image |
| JmvPlayer.Player.PlayedInOrder | Common/Libraries/audiolib/jmv_lib.c:534-582 | what was taken out, followed by what is in the FIFO, is the audio at the queued positions, which are the movie's in order as long as every fill kept the order, and so with aligned sizes and fewer than two underruns and retries |
| JmvPlayer.Player.Lockstep | Common/Libraries/audiolib/jmv_lib.c:387-398 | fifo_pos times the packet size less the FIFO's content is two packets ahead of the clock less the underruns, and the image stays behind the audio |
| OpForest.AddChild | Common/Src/lv_file_manager.c:274-290 | adding a child behind the last one lengthens one list of children and changes nothing that a walk above still has to visit |
| OpForest.ForestOnce | Common/Src/lv_file_manager.c:354-375 | pre-order and post-order of a forest list every node once |
| OpScan.SuccIsNext | Common/Src/lv_file_manager.c:3261-3289 | first child, else next sibling, else the next sibling of the nearest ancestor that has one: this is the next node of the pre-order |
| OpScan.GoOn | Common/Src/lv_file_manager.c:3261-3289 | the climbing loop computes that move |
| OpScan.MoveOn | Common/Src/lv_file_manager.c:3259-3290 | with a folder's entries in the forest, the walk moves to a node not yet visited, and visits made and to be made stay the pre-order of the selection |
| OpScan.MoveOff | Common/Src/lv_file_manager.c:3286-3290 | where the walk goes nowhere it has been everywhere |
| OpScan.AddEntryWalk | Common/Src/lv_file_manager.c:2638-2682 | a node added below the walk's position keeps that order |
| OpScan.PlacedSamePath | Common/Src/lv_file_manager.c:2608-2678 | source and destination of a node are reached from the two roots by the same chain of names, for folders and files, at volume roots and below; split at the slashes both are the parts of the root and then those names |
| OpScan.UnderParts | Common/Src/lv_file_manager.c:2608-2678 | a path built below a directory, split at its slashes, has the parts of the directory and then the names, no more and no fewer, also at a volume root |
| OpScan.UnderDiffers | Common/Src/lv_file_manager.c:2608-2678 | different chains of names lead to different paths |
| OpScanTask.Scan.Select | Common/Src/lv_file_manager.c:3204-3231 | each selected entry becomes the last root, with the path its kind needs |
| OpItems.FilesNeverLow | Common/Src/lv_file_manager.c:3293-3307 | a selection of files is never refused for lack of space, whatever their sizes |
| OpItems.FileBytesOne | Common/Src/lv_file_manager.c:2616-2672 | a file counts with its size, and a folder with nothing |
| OpItems.SpaceCompared | Common/Src/lv_file_manager.c:3293-3307 | while the free sectors fit a word, bytes for which there is room are not refused, and bytes that exceed it by a KB are |
| OpItems.SpaceExact | Common/Src/lv_file_manager.c:3293-3307 | the sum is compared with the free KB, for all sums, if and only if the 32-bit product of clusters and sectors does not wrap |
| OpScanTask.Scan.FolderScan | Common/Src/lv_file_manager.c:2584-2692 | each step of a folder scan brings it closer to its end and keeps the order of the walk, and at the end all entries whose short name has no leading dot are in the forest with their long names |
| OpScanTask.Scan.Tick | Common/Src/lv_file_manager.c:3247-3290 | each tick visits the node it stands at or brings its scan closer to the end |
| OpScanTask.Scan.Run | Common/Src/lv_file_manager.c:3233-3463 | on any finite tree the paste scan behind a selection ends, has visited every node once in pre-order, and leaves a forest that mirrors the selection and all listed descendants, with total its node count, paths preserved down to the characters between their slashes, and total_size, set back at the end of the selection, the sum of the sizes of all files but those selected themselves |
| OpWalks.PreSucc | Common/Src/lv_file_manager.c:3912-3936 | one move of the copy walk is one node of the pre-order |
| OpWalks.CopyOnce | Common/Src/lv_file_manager.c:3912-3936 | the copy walk meets no node twice and in the end all |
| OpWalks.RootsOnce | Common/Src/lv_file_manager.c:3912-3936 | where roots are renamed the walk meets each root once and no other node |
| OpWalks.ParentFirst | Common/Src/lv_file_manager.c:3885-3936 | a folder is made before anything is put into it |
| OpWalks.ChildrenFirst | Common/Src/lv_file_manager.c:3982-4014 | a node is released only after all its children |
| OpWalks.ReleaseNext | Common/Src/lv_file_manager.c:354-375 | the destructive walk releases each node once, after its children, and its links lead to the rest of the post-order though some were cleared |
| OpClean.MeetReleased | Common/Src/lv_file_manager.c:354-375 | a clean walk that starts anew during a deletion meets a released node first, unless the deletion stands on the line of first children |
| OpClean.CleanTurn | Common/Src/lv_file_manager.c:354-375 | each turn of the clean walk goes down that line, meets a released node off it, or continues the deletion's own post-order |
| OpFileTask.FileTask.Visit | Common/Src/lv_file_manager.c:3857-3937 | a node is handled once, its parent before it, and the walk goes on |
| OpFileTask.FileTask.Work | Common/Src/lv_file_manager.c:3863-3907 | rename, mkdir or open, each with its error and name-taken outcomes, changes this node's destination and nothing else |
| OpFileTask.FileTask.CopyChunk | Common/Src/lv_file_manager.c:3945-3969 | the destination of the open file grows by what is stored of the next chunk, and the file is done at the first read that is not full |
| OpFileTask.FileTask.PasteTick | Common/Src/lv_file_manager.c:3846-3971 | each tick keeps all copies made so far and comes closer to the end; deletion begins only with every node copied |
| OpFileTask.FileTask.DeleteTick | Common/Src/lv_file_manager.c:3973-4024 | a source is unlinked with its children gone before it, once, in post-order |
| OpFileTask.FileTask.Tick | Common/Src/lv_file_manager.c:3832-4057 | every tick keeps that sources go only with all copies made, and makes progress; one that ends the run in the copy phase leaves all sources; without trouble the last one leaves all done and every node given back once |
| OpFileTask.FileTask.Clean | Common/Src/lv_file_manager.c:354-375 | cleaning ends; it gives every node back once if and only if the deletion it interrupts stands on the line of first children |
| OpFileTask.FileTask.End | Common/Src/lv_file_manager.c:4032-4057 | the forest is cleaned except after a deletion, soundly in exactly that case |
| OpFileTask.FileTask.Session | Common/Src/lv_file_manager.c:3832-4057 | in any run, with failures and cancels anywhere: no source goes before every folder is made and every file copied, and an error in the copy phase leaves all sources |
| OpFileTask.FileTask.constructor | Common/Src/lv_file_manager.c:3293-3307 | while the free sectors fit a word, the task begins by copying if there is room for the bytes, and by deleting if they exceed it by a KB |
| OpFileTask.FileTask.RunToEnd | Common/Src/lv_file_manager.c:3293-3307 | an uncancelled run ends; without trouble all is copied, moved or deleted, and sources that went had copies if and only if the run began in PASTE, that is, not through the branch for too little space |
| OpFileTask.FileTask.GoneHasCopy | Common/Src/lv_file_manager.c:3938-3969 | a source that went has its folder or file at the destination, and the file equals it if and only if no write was short |
| JpegCodec.Codec.Start | Common/Src/hal_jpeg_codec.c:93-171 | decoding starts exactly if the reads succeed, with full slots |
| JpegCodec.Codec.Refill | Common/Src/hal_jpeg_codec.c:175-189 | a free slot is filled without touching the one the peripheral reads |
| JpegCodec.Codec.PublishSlot | Common/Src/hal_jpeg_codec.c:183 | the filled slot becomes the next chunk |
| JpegCodec.Codec.Wake | Common/Src/hal_jpeg_codec.c:190-202 | a paused input is configured with the slot it waits for and resumed, and only then |
| JpegCodec.Codec.GetDataCallback | Common/Src/hal_jpeg_codec.c:252-286 | used-up slots are the chunks in order; the peripheral goes on exactly if another chunk is there |
| JpegCodec.TastingOn | Common/Src/hal_jpeg_codec.c:280-285 | bytes given stay the chunks' bytes in order, with the exact surplus when a window did not start at the chunk's first byte |
| JpegCodec.Codec.PausedIsEmpty | Common/Src/hal_jpeg_codec.c:190-202 | between refills a paused input has both slots empty and waits for the slot that is refilled next, so no wake-up is lost |
| JpegCodec.Codec.DataReadyCallback | Common/Src/hal_jpeg_codec.c:288-309 | the peripheral fills only a slot that is not full, and goes on exactly if the other one is free |
| JpegCodec.Codec.ConvertSlot | Common/Src/hal_jpeg_codec.c:208-216 | slots are converted in the order they were written, each at the MCU behind those before |
| JpegCodec.Codec.Io | Common/Src/hal_jpeg_codec.c:173-240 | one undisturbed call reads a chunk exactly if a slot is free, wakes a paused input with it, converts a full slot, ends at the last MCU, and wakes a paused output when there is no full slot |
| JpegCodec.Codec.Drain | Common/Src/hal_jpeg_codec.c:204-237 | from every paused output state, calls alone lead to the resume, one for each full slot and one more |
| JpegCodec.PlacedAt | Common/Src/hal_jpeg_codec.c:208-216 | the k-th converted slot is the k-th block, drawn from the sum of the MCU counts before it |
| JpegCodec.Codec.Session | Common/Src/hal_jpeg_codec.c:173-309 | the hand-over invariant holds under any interleaving of single steps with both callbacks |
| JpegCodec.Codec.Step | Common/Src/hal_jpeg_codec.c:173-240 | each step of the main loop goes where the code goes, and reads, publishes, converts or resumes exactly there |
| JpegCodec.Codec.Decode | Common/Src/hal_jpeg_codec.c:173-309 | with a window used up, a slot filled and a call in every round, nothing pauses: all that was read but the two slots left is taken in order, every block is converted, and the codec is idle when the last MCU is |
| JpegCodec.Codec.StartsRunning | Common/Src/hal_jpeg_codec.c:93-171 | a decode of two slots that has just started is in the state from which it goes on without a pause |
| JpegCodec.Codec.InStep | Common/Src/hal_jpeg_codec.c:252-286 | in every reachable state the peripheral was given the chunks in order, each byte once, if and only if no callback came after a partly used window; and the output is converted in order once |
| FtpClient.Session.Done | Common/Src/lv_file_manager.c:4794-4915 | the callbacks start the operation after the login, list after CWD, and otherwise end the session |
| FtpClient.Session.Command | Common/Src/lwftp.c:717-834 | a command without data is sent only when logged in; otherwise nothing is sent, or the session ends with QUIT, as its callback does |
| FtpClient.Session.Transfer | Common/Src/lwftp.c:837-929 | a transfer is begun with TYPE and a data pcb exactly when logged in, without a data pcb, and one is to be had; otherwise the session ends |
| FtpClient.Session.ControlProcess | Common/Src/lwftp.c:273-525 | every reply leads where the protocol table says, with the one command that belongs there; while data moves, 226 and 250 change nothing and any other reply ends the session; the data pcb is used when missing exactly on 150 to STOR after the data connection was lost |
| FtpClient.Session.Converse | Common/Src/lwftp.c:273-525 | each of the operations follows its own script of commands as long as the replies are those due by RFC 959, and is then transferring with its data connection, or done; to the first other reply it says QUIT |
| FtpClient.Session.SecondStep | Common/Src/lwftp.c:509-525 | the end of data and every refusal send QUIT, the answer to QUIT closes everything |
| FtpClient.Session.PasvReply | Common/Src/lwftp.c:389-421 | after 227 exactly the transfer command of the operation is sent; the branch for an unexpected target is never taken |
| FtpClient.Session.DataEnded | Common/Src/lwftp.c:119-128 | the end of the data closes the data pcb and sends QUIT |
| FtpClient.Session.DataReceived | Common/Libraries/audiolib/lwftp_ff.c:113-121 | a sink that fails ends the session, one that has enough aborts the transfer, and only while transferring |
| FtpClient.Session.DataFailed | Common/Src/lwftp.c:151-163 | a data error ends a running transfer and leaves any other dialogue where it is |
| FtpClient.Session.Abort | Common/Src/lwftp.c:932-951 | ABOR is sent only while transferring; anywhere else an abort ends the session or, while CWD is answered, does nothing |
| FtpClient.Session.ControlClose | Common/Src/lwftp.c:252-266 | both pcbs go and the state is CLOSED |
| FtpClient.CommandNext | Common/Src/lwftp.c:389-416 | each transfer command follows TYPE with 200 and PASV with 227 |
| FtpClient.AborNext | Common/Src/lwftp.c:932-946 | ABOR follows a transfer command answered with 150 |
| FtpClient.Session.Run | Common/Src/lwftp.c:598-667 | the session invariant holds over any run of callbacks and aborts |
| FtpClient.Session.Obeys | Common/Src/lwftp.c:273-525 | in every reachable state each command in the log was allowed where it was sent by sections 4.1.3 and 5.4 of RFC 959, nothing but QUIT follows a QUIT, data moves only in the operation's own dialogue, and no control pcb means no data pcb and CLOSED |
| FtpTransfer.Retr.Send | Common/Src/ftps.c:551-595 | whatever the window and the outcome of the write, sent bytes followed by owed bytes stay the same, and the connection is closed only with nothing owed |
| FtpTransfer.Retr.Run | Common/Src/ftps.c:442-595 | with windows above 0 a retrieval ends, having sent exactly the file from the offset on |
| FtpTransfer.Upload.Read | Common/Src/lv_file_manager.c:4994-5029 | the source hands out the next bytes that are owed, and none exactly if nothing is owed or there is no room |
| FtpTransfer.Upload.Run | Common/Src/lwftp.c:76-145 | an upload ends; it sends what was owed at its start in order, and falls short only in a turn without room |
| FtpTransfer.Upload.StartsRight | Common/Src/lv_file_manager.c:5001-5006 | what is owed at the start is the file if and only if the buffer is read anew, or its stale rest happens to be the file |
| FtpTransfer.Stor.Receive | Common/Src/ftps.c:1059-1083 | the file followed by the buffer is what arrived, for any chain of segments |
| FtpTransfer.Stor.Finish | Common/Src/ftps.c:1084-1094 | at the end of the data the file is exactly what arrived |
| FtpTransfer.SegmentBound | Common/Src/ftps.c:1066-1078 | a segment fits the buffer wherever the pointer is if and only if it has at most 2273 bytes |
| FtpTransfer.Download.Write | Common/Src/lv_file_manager.c:5031-5056 | the file followed by the buffer is what arrived, until a write fails |
| FtpTransfer.Download.Run | Common/Src/lv_file_manager.c:4238-4250 | after the last block the file is exactly what arrived, or a beginning of it with the failure noted |
| FtpTransfer.RemoteRead.BufferWrite | Common/Libraries/audiolib/lwftp_ff.c:106-140 | at most the wanted bytes are stored, the position advances by exactly those stored |
| FtpTransfer.RemoteRead.Session | Common/Libraries/audiolib/lwftp_ff.c:39-140 | however a session is cut, the bytes stored are the file from the old position on, and the rest of the ring is untouched |
| FtpTransfer.ReadAll | Common/Libraries/audiolib/lwftp_ff.c:39-140 | any sequence of reads yields the file in order, nothing lost and nothing twice, and all that was asked for if the server cuts nothing off |
| FtpTransfer.OffsetArrives | Common/Src/ftps.c:1646-1662 | the offset the server takes from the client's text is the client's position, with and without REST |
| Decimal.StrtoulOfPrint | Common/Src/lwftp.c:200-205 | a printed number is read back, and reading stops behind it |
| Passive.RoundTrip | Common/Src/ftps.c:1729-1735 | for every address and port the client's parser finds in the printed reply what the server announces |
| Passive.ReplyFields | Common/Src/ftps.c:1729-1735 | the printed reply holds the address from its first byte on and the port with its high byte first |
| Passive.SearchEnds | Common/Src/ftps.c:1698-1713 | the search meets a port not in use if and only if there is one in the range |
| Passive.Listener.Search | Common/Src/ftps.c:1698-1713 | the port found is the first not in use in cyclic order from where the last search ended |
| ListLine.ScanWords | Common/Src/lv_file_manager.c:4946-4948 | the conversions of the format take a printed line word by word |
| ListLine.LineRoundTrip | Common/Src/ftps.c:511-528 | every printed line, with time or with year, directory or file, is parsed to the entry's name, kind and size |
| ListLine.LineBegins | Common/Src/ftps.c:511-528 | a line begins with a d exactly for a directory |
| ListLine.NameArrives | Common/Src/lv_file_manager.c:4946-4956 | the name is the same if and only if it does not begin with a blank |
| ListLine.DateArrives | Common/Src/lv_file_manager.c:4966-4967 | the date is the entry's 16-bit date, a missing month or day made 1, if and only if the line was printed with its year |
| ListLine.FeedCut | Common/Src/lv_file_manager.c:4933-4989 | where the text is cut makes no difference to the lines |
| ListLine.ListingFed | Common/Src/ftps.c:468-549 | the printed lines of a directory are assembled one for one |
| ListLine.Lister.Receive | Common/Src/lv_file_manager.c:4917-4992 | one piece extends the list by exactly the lines it ends |
| ListLine.Lister.ReceiveListing | Common/Src/lv_file_manager.c:4917-4992 | a directory's listing, cut anywhere, comes out as its entries |
| PlayerWitnesses.StarvesForGood | Common/Src/lv_file_player.c:621-707 | a run to a starved player that no number of ticks resumes |
| PlayerWitnesses.ReadsOutside | Common/Libraries/audiolib/flac_lib.c:412-417 | a run to a request that passes the guard without being loaded |
| PlayerWitnesses.SeekIsLost | Common/Src/lv_file_player.c:674-688 | a run to a seek whose position the next tick moves |
| PlayerWitnesses.SeekSpoilsFill | Common/Libraries/audiolib/flac_lib.c:312-325 | a run to a fill that a seek leaves unsound |
| PlayerWitnesses.RestartsMisaligned | Common/Libraries/audiolib/jmv_lib.c:273-300 | a life in which the user pauses, seeks and presses play before the first frame, and positions and bytes differ by two frames |
| PlayerWitnesses.StartsShort | Common/Libraries/audiolib/jmv_lib.c:302-312 | a life in which a seek near the end wraps the count of the FIFO |
| PlayerWitnesses.StartsInterrupted | Common/Libraries/audiolib/jmv_lib.c:302-312 | a life in which a playing interrupt behind the first packet of priming wraps the count of the FIFO |
| PlayerWitnesses.SeeksInFirst | Common/Libraries/audiolib/jmv_lib.c:452-486 | a life in which a seek comes while the first image is decoded: the fill that follows starts behind the place the next decode expects |
| PlayerWitnesses.WrongImage | Common/Libraries/audiolib/jmv_lib.c:353-372 | a run through a timed-out first frame to a fill after which another image is taken for the expected one |
| PlayerWitnesses.PacketsAstray | Common/Libraries/audiolib/jmv_lib.c:641-693 | a run of a movie with images of 33 bytes whose third packet is taken 31 bytes too far |
| PlayerWitnesses.WindowSlips | Common/Src/hal_jpeg_codec.c:280-285 | two callbacks of one byte each, after which the bytes given are not the beginning of the chunks |
| OpWitnesses.CopyDeletes | Common/Src/lv_file_manager.c:3293-3307 | a copy without room that deletes its sources and makes nothing |
| OpWitnesses.RoomDeletes | Common/Src/lv_file_manager.c:3293-3307 | a copy to a volume whose free sectors wrap to 0, which deletes its sources and makes nothing |
| OpWitnesses.CancelUnsound | Common/Src/lv_file_manager.c:354-375 | a deletion cancelled off the line of first children, whose cleaning is unsound |
| OpWitnesses.MoveLoses | Common/Src/lv_file_manager.c:3938-3969 | a move whose short write goes unnoticed: the source is gone and its copy differs |
| NetWitnesses.GoesAstray | Common/Src/lwftp.c:450-460 | a STOR session whose answer 150 uses a data pcb that is gone |
| NetWitnesses.QuitsTwice | Common/Src/lwftp.c:509-525 | a session that sends QUIT twice in a row |
| NetWitnesses.EndsWithoutRoom | Common/Src/lwftp.c:76-97 | an upload that ends with nothing sent |
| NetWitnesses.BeginsStale | Common/Src/lv_file_manager.c:5001-5006 | an upload that owes the rest of another file |
| NetWitnesses.DateIsLost | Common/Src/lv_file_manager.c:4966-4967 | an entry of the current year whose date does not arrive |
| NetWitnesses.NameIsCut | Common/Src/lv_file_manager.c:4946-4956 | an entry whose name does not arrive |
| NetWitnesses.SearchesOn | Common/Src/ftps.c:1698-1713 | with every port in use the search never meets one that is not |

## Left out

- JmvLife.Lib.Live: a life is followed up to the first of four faults, with their conditions in `FirstPass`, `SeekPass`, `WaitPass` and `BufferPass`: the count of the FIFO has wrapped, the positions after a seek are not those of the FIFO, a new fill is not at the place expected, or the buffer task is about to move a sought position. The end of playback and a new movie are not followed either.
- JmvPlayer.Player.Prime: the subtraction from the count is one step, and interrupts come before or behind it.
- JmvPlayer.Player.DecodeFrame: what lies in memory behind the frame vector does not wrap the sum it is added to.
- StreamRing.Stream.Life: a seek is not made in the middle of a fill, and the buffer task does not go on with a refill between a seek and the fill; `SeekInFill` and `SeekSurvives` say exactly what these do.
- StreamRing.Stream.FillReadBuf: a request that passes the guard unloaded is not carried out, since what lies around the ring in memory is not modelled; sessions make none.
- StreamRing.Stream.Fill: FLAC and JMV share this fill; metadata and codec calls around it are external.
- OpFileTask.FileTask.Session: all roots come from one volume, as one selection does; file times are not copied.
- OpScanTask.Scan.Run: path buffers of 256 characters and failing allocations are not modelled.
- FtpClient.Session.ControlProcess: a reply is its number; failing writes to the control connection are not modelled.
- FtpTransfer.Upload.Run: a data write that fails in the stack loses its bytes in the source code; here it does not fail.
- FtpTransfer.Stor.Receive: the static write pointer is one connection's; two connections that store at once overwrite it.
- FtpTransfer.Download.Write: the buffer lies below the middle of the address space, so that a null write pointer compares as nothing to flush.
- ListLine.LineRoundTrip: the conversions store whole words into one-byte variables in the source code; here only the values are modelled.
- Remote playback: its decoders read over the remote cursors as the local ones do. Its buffer task is another one: it asks for a whole half in one call, and stops playback when a session ends with less before the end of the file, or with nothing (`lv_file_player.c:780-788`). Only the sessions below it are modelled (`RemoteRead.Session`, `ReadAll`).
- The MP3 window and the WAV reader: they add only easy members, and the former conserves bytes only when fed.
- Upload and download of folders: the walks are those of the copy, with a session per node instead of a file system call.
- Server LIST flow control, where the buffer is reused for each callback; only its line printer is modelled.
- Server command parsing, login, and commands other than RETR, STOR, REST, PASV and LIST.
- DMA output of the JPEG codec, which only advances a pointer, and the colour conversion, which is a parameter.
- User interface, drivers, clocks, timeouts, credentials and address configuration.
