# A model of omnescode's input, connection and maintenance code, with proofs

The parts of the repository that carry state, branch a lot, or rewrite something whose meaning must survive are modelled here
in the form the code has, and the central promise of each is proved over all inputs and all runs.

* **Terminal input** (`SgrMouse`, `InputPipeline`). Raw terminal events pass through a decoder that reassembles split xterm
  mouse sequences, a fold of queued drags, and a push-back. Every raw event is delivered, held, or part of the one block that
  was in hand when the terminal failed, in order. What is ready is read at once and nothing else is, and every poll delivers
  an event or finds nothing for a whole tick. Every mouse event of the protocol, spelled out key by key, comes out as that
  event and nothing before it.
* **The connection loop** (`ConnectionHistory`, `ConnectionLoop`). Reconnect, relay-to-direct migration, transactional
  adoption and the single respawn run against an arbitrary network and clock. A history records every answer of the
  environment and every action of the loop; the loop's policy says, from the history alone, which one thing is due next, and
  the loop is proved to do just that. What such histories imply is proved about them: a session found down reconnects when,
  and only when, it may; a client that a connection attempt brings is adopted; none leaks.
* **Tab bar and help overlay** (`ModeBar`, `SoftWrap`, `HelpFilter`, `HelpTyping`). A greedy window and a greedy line breaker
  are proved optimal; hit rectangles are proved disjoint; the help search is proved to show exactly what matches.
* **Comment lexers** (`TextLines`, `LineStreams`, `Nix*`, `Shell*`, `Toml*`, `Rust*`). The line-at-a-time scanners are proved
  against step functions. For Nix, shell and TOML the step functions are proved against a reading of the text as one stream,
  and that reading against trees of nested text: printing a tree and scanning the lines gives back the tree's comments and
  the state the scanner started in. The same is proved for Rust with its strings, raw strings and nested block comments; and,
  on every input, that what is emitted under one block id is a nested block comment.
* **The self-updater** (`FileTrees`, `Update*`). File operations fail, stop halfway, and record every state the disk passes
  through, so an interruption anywhere is a state in the record. Every call is recorded with its answer as well, so that a
  step that fails, a rollback above all, is known to have been tried and refused.
* **The SKILL.toml migration** (`SkillMigration`, `MigrationLines`, `MigrationMeaning`, `MigrationTheorem`). A rewrite of text
  is compared with a rewrite of tables. It keeps its promise exactly when no line end is missing where two pieces meet; both ways to
  fail are shown.
* **The bulk rename** (`RenamePlan`, `RenameEffect`, `RenameNames`, `RenameSpellings`). A list of renames in place, deepest first, keeps every
  source path valid on every tree. It is proved to carry out the recursive map of names exactly when no names clash, and what
  it loses otherwise is settled entry by entry.

Where code and documentation differ, the model follows the code. A comment in `smart_rename_name` announces `omnes.agent` as
the third spelling; the code matches `zero.claw` there. A comment in the migration puts the forge table after pass-through
tables that follow `[skill]`; the code puts it right after `[skill]`.

Five properties turn out not to hold of every input. Each has an input that shows it and the condition under which it holds,
proved in both directions.

* The migration loses a table when a line end is missing at a seam: after a key of the last `[skill]`, or after the header of
  a moved sub-table (`MigrationTheorem.MeaningKeptIff`, `GluedExample`, `GluedHeaderExample`).
* A longer help query can show more entries: exactly when the typed letter takes the end of the word away from a capital
  sigma (`HelpTyping.TypingAddsIff`, `SigmaAdds`).
* The shell scanner takes quoted text for a here-document's body: exactly when a line ends inside quotes or arithmetic while
  a here-document waits (`ShellTree.FileRoundTrip`, `QuotedOverLineEndMisread`). What follows up to the body's end, the
  closing quote included, is consumed and the quote stays open (`ShellTree.Swallowed`).
* The bulk rename loses an entry, by a rename that succeeds: exactly when a sibling whose turn comes later gets the new name of
  the first that does, or the name of a link that points nowhere, and `rename` can put it there (`RenameEffect.KeptIff`). With
  files there is not even an error (`RenameEffect.FilesSilent`, `RenameNames.MixedPairLost`).
* A completed update leaves the validated binary in place unless the running executable bears the companion's name and the
  companion was installed: then the companion's bytes are there (`UpdateRun.Run`, `UpdateRun.ValidatedIff`).

The environment (terminal, network, clock, file system failures, processes, the content of an archive) is a parameter or a
nondeterministic choice. `Fields`, `Sequences` and `Wrappers` hold shared vocabulary.

## Model

| member | source | states |
|---|---|---|
| SgrMouse.ButtonCodeParses | backend/apps/omnescode/src/app.rs:342-372 | the button byte of every kind and every set of Shift, Alt and Control decodes to exactly them |
| SgrMouse.UnsignedIff | backend/apps/omnescode/src/app.rs:312-340 | a field is a number exactly when it is digits, after a plus sign or not, and the number is in range |
| SgrMouse.NoOtherButtons | backend/apps/omnescode/src/app.rs:342-372 | the bytes that are no button: those with the highest bit, and horizontal scrolls that move |
| SgrMouse.ParseSgrMouseIffSpelled | backend/apps/omnescode/src/app.rs:312-340 | the parser accepts a text as an event exactly when the text spells it: three unsigned fields, a known button, positions from one, the final letter |
| SgrMouse.SgrTextParses | backend/apps/omnescode/src/app.rs:312-372 | the text a terminal sends for an event parses back to that event |
| SgrMouse.SpelledParses | backend/apps/omnescode/src/app.rs:312-340 | every spelling of an event, leading zeros and plus signs included, is accepted as it |
| SgrMouse.SplitSequenceRoundTrip | backend/apps/omnescode/src/app.rs:180-289 | fed key by key to an idle decoder, every proper prefix of an event's sequence emits nothing and the whole emits exactly the event |
| SgrMouse.OnlyEscapeStarts | backend/apps/omnescode/src/app.rs:180-194 | only a plain press of the escape key is held back; any other event passes an idle decoder at once |
| SgrMouse.FeedAllSnoc | backend/apps/omnescode/src/app.rs:180-194 | feeding events one after another composes |
| InputPipeline.StepConserves | backend/apps/omnescode/src/app.rs:180-194 | one fed event: what was held and the event equal what is emitted and what is held after |
| InputPipeline.FeedConserves | backend/apps/omnescode/src/app.rs:180-194 | the same for the queue of decoded events with the raw events each stands for |
| InputPipeline.Terminal.Poll | backend/apps/omnescode/src/app.rs:426-438 | polling may wait, fail, or find nothing; it reads nothing, and time passes up to the timeout |
| InputPipeline.Terminal.Read | backend/apps/omnescode/src/app.rs:437-445 | a read yields one event, the next of the stream, or fails |
| InputPipeline.Terminal.ReadWithin | backend/apps/omnescode/src/app.rs:426-447 | a poll, and a read exactly when it found an event; nothing only after a poll that found nothing for its whole timeout |
| InputPipeline.MatchPrefix | backend/apps/omnescode/src/app.rs:254-262 | the two-character prefix loop: too short, different, or matched |
| InputPipeline.SgrMouseEventDecoder.constructor | backend/apps/omnescode/src/app.rs:172-177 | a new decoder holds nothing |
| InputPipeline.SgrMouseEventDecoder.Feed | backend/apps/omnescode/src/app.rs:180-194 | the decoder's queue and candidate after an event, and that nothing held is lost or reordered |
| InputPipeline.SgrMouseEventDecoder.Next | backend/apps/omnescode/src/app.rs:196-198 | the oldest decoded event, with the raw events it stands for |
| InputPipeline.SgrMouseEventDecoder.PushFront | backend/apps/omnescode/src/app.rs:200-202 | an event read too far goes back in front of everything held |
| InputPipeline.SgrMouseEventDecoder.PollTimeout | backend/apps/omnescode/src/app.rs:204-208 | with a candidate the wait ends at its deadline, or is none when that has passed; a tick otherwise |
| InputPipeline.SgrMouseEventDecoder.FlushCandidate | backend/apps/omnescode/src/app.rs:210-217 | a replayed candidate is queued event for event |
| InputPipeline.SgrMouseEventDecoder.FlushTimedOutCandidate | backend/apps/omnescode/src/app.rs:219-224 | flushes exactly when the candidate's time is up |
| InputPipeline.SgrMouseEventDecoder.DecodeCandidate | backend/apps/omnescode/src/app.rs:241-283 | keeps, decodes or replays the candidate as the specification resolves it, the 32-event bound included |
| InputPipeline.SgrMouseEventDecoder.ReplayCandidate | backend/apps/omnescode/src/app.rs:285-288 | gives up the whole candidate in order |
| InputPipeline.SgrMouseEventDecoder.ReadReady | backend/apps/omnescode/src/app.rs:226-239 | the next event available without waiting, and nothing only when a poll found none; what is ready is read at once; the log of the terminal is accounted for on every path |
| InputPipeline.CoalesceMouseDrag | backend/apps/omnescode/src/app.rs:392-413 | folds 1 to 64 drags of one button into the last, as long as one is ready; a different event read on the way is returned |
| InputPipeline.AwaitEvent | backend/apps/omnescode/src/app.rs:426-438 | an event, or nothing only after a poll that found nothing for a whole tick; what is ready is read at once, a timed-out candidate is replayed, and an error is the terminal's |
| InputPipeline.PollInputEvent | backend/apps/omnescode/src/app.rs:415-460 | one poll of the loop: the delivered event stands for the block of raw events after those delivered before, and without one a whole tick has passed with nothing ready |
| InputPipeline.RunInput | backend/apps/omnescode/src/app.rs:415-460 | any number of polls: a read follows every poll that found an event and nothing else; the raw stream is the delivered blocks, the block in hand on a failure, and what is held; events delivered and idle ticks add up to the polls |
| ConnectionLoop.Network.ConnectPreferred | backend/apps/omnescode/src/main.rs:245-302 | direct first, for the bounded number of attempts; the relay only when all of them were spent; given up only when every dial the route allows has failed |
| ConnectionLoop.Network.Connect | backend/apps/omnescode/src/main.rs:350-363 | a client never seen before, with the leg it was dialled on, or every allowed dial failed |
| ConnectionHistory.ThrottledSnoc | backend/apps/omnescode/src/app.rs:1069-1074 | one more action keeps reconnects a second apart within an episode and re-probes their period apart |
| ConnectionHistory.EpisodeSnoc | backend/apps/omnescode/src/app.rs:1062-1068 | one more action keeps the respawns at one per episode |
| ConnectionHistory.RunThrottled | backend/apps/omnescode/src/app.rs:1069-1149 | in every run reconnects of an episode start a second apart or more, and probes their period |
| ConnectionHistory.RunRespawns | backend/apps/omnescode/src/app.rs:1062-1068 | in every run only an owned local daemon is respawned, and once an episode |
| ConnectionHistory.RunShutsDown | backend/apps/omnescode/src/app.rs:858-905 | in every run, outside an adoption, exactly the client in use has not been shut down, and every other one was, once |
| ConnectionHistory.DownReconnects | backend/apps/omnescode/src/app.rs:1058-1088 | an iteration that finds the session down respawns first exactly when it still may, reads the clock, and starts a connection attempt exactly when none is open and the last one of the episode is a second old; an open one is polled |
| ConnectionHistory.RelayProbes | backend/apps/omnescode/src/app.rs:1120-1154 | an iteration that finds the session live on the relay, with probing on, starts a probe exactly when none is open and the period has passed, and polls an open one |
| ConnectionHistory.EndedAttemptAdopted | backend/apps/omnescode/src/app.rs:1085-1167 | a client that an attempt or a probe ends with is installed and the panes are rebuilt on it; then the one it replaces is shut down, or it is |
| ConnectionLoop.Session.constructor | backend/apps/omnescode/src/app.rs:770-784 | an empty history, in which the state query is due |
| ConnectionLoop.Session.AdoptClient | backend/apps/omnescode/src/app.rs:858-905 | transactional: panes and `rpc` name one client, the previous one again when the rebuild fails; whichever is left out is shut down |
| ConnectionLoop.Session.RespawnOnce | backend/apps/omnescode/src/app.rs:1062-1067 | a respawn happens exactly for an owned local daemon that has not been respawned in the episode |
| ConnectionLoop.Session.StartReconnectIfDue | backend/apps/omnescode/src/app.rs:1069-1083 | an attempt starts exactly when none runs and the throttle allows it |
| ConnectionLoop.Session.StartReprobeIfDue | backend/apps/omnescode/src/app.rs:1135-1149 | a probe starts exactly when none runs and its period has passed |
| ConnectionLoop.Session.FinishReconnect | backend/apps/omnescode/src/app.rs:1085-1116 | the running attempt is polled: its client is adopted with its leg, or a respawn that did not help is flagged, or it runs on |
| ConnectionLoop.Session.AdoptRecovered | backend/apps/omnescode/src/app.rs:1093-1109 | the whole adoption, with the leg committed with the panes; the episode ends exactly when the rebuild works |
| ConnectionLoop.Session.FinishReprobe | backend/apps/omnescode/src/app.rs:1150-1166 | the running probe is polled: its client is adopted on the direct leg, or the session stays on the relay |
| ConnectionLoop.Session.AdoptMigrated | backend/apps/omnescode/src/app.rs:1156-1165 | the whole adoption; a probe that connects but cannot be adopted leaves the relay leg in place |
| ConnectionLoop.Session.Reconnect | backend/apps/omnescode/src/app.rs:1061-1118 | one iteration's work on a session that is down is what its history calls for: respawn, clock, start, poll and adoption as they are due |
| ConnectionLoop.Session.Recover | backend/apps/omnescode/src/app.rs:1058-1118 | the state is asked for and answered truly; a live session is left alone, a pending probe does not outlive a disconnect, and the rest is what is due |
| ConnectionLoop.Session.Migrate | backend/apps/omnescode/src/app.rs:1120-1167 | the clock is read for a probe exactly when the session is live on the relay, has a direct address and probes; it moves only to the direct leg |
| ConnectionLoop.Session.Run | backend/apps/omnescode/src/app.rs:1058-1167 | as many iterations as asked, and every action in them the one its history calls for, with the environment's answers as it gave them; so the throttles, one respawn an episode, and every client but the one in use shut down once |
| ConnectionHistory.ReconnectRate | backend/apps/omnescode/src/app.rs:1069-1083 | an episode with n attempts lasted at least n - 1 seconds between the first and the last |
| ModeBar.WidthMonotone | backend/apps/omnescode/src/app.rs:1761-1769 | a wider window is never narrower on screen, although it may need fewer markers |
| ModeBar.VisibleModeWindow | backend/apps/omnescode/src/app.rs:1734-1759 | the window holds the active tab, fits unless it is that tab alone, no larger one around it fits, and all tabs show when all fit |
| ModeBar.ModeAtUnambiguous | backend/apps/omnescode/src/app.rs:548-561 | a click selects a tab exactly when it falls into that tab's rectangle; no two rectangles, and no rectangle and the summary, share a cell |
| ModeBar.MarkedWidth | backend/apps/omnescode/src/app.rs:1660-1676 | titles with their markers and dividers take exactly the width the window was counted with |
| ModeBar.PlaceTabs | backend/apps/omnescode/src/app.rs:1678-1700 | rectangles lie in the tab area one after another in tab order; when the titles fit, every one is whole |
| ModeBar.SplitArea | backend/apps/omnescode/src/app.rs:1643-1658 | the summary is shown exactly when the active tab still fits beside it, and the two areas partition the bar |
| ModeBar.DrawModeBar | backend/apps/omnescode/src/app.rs:1629-1700 | the bar as a whole: a fitting window is shown whole, the active tab always has a rectangle, and the summary is shown exactly when the active tab fits whole beside it |
| SoftWrap.ParagraphWords | backend/apps/omnescode/src/app.rs:1947-1949 | splitting a text into paragraphs loses and moves no word |
| SoftWrap.Utf8LenBytes | backend/apps/omnescode/src/app.rs:1945-1963 | the length a line is measured by counts the bytes of its UTF-8 form |
| SoftWrap.WrapBreaks | backend/apps/omnescode/src/app.rs:1948-1963 | the lines hold the words in order, each line fits or is one word |
| SoftWrap.NoFewerLines | backend/apps/omnescode/src/app.rs:1948-1963 | no other in-order breaking of a paragraph that meets this rule has fewer lines |
| SoftWrap.NoFewerLinesInAll | backend/apps/omnescode/src/app.rs:1945-1965 | the same for the whole text |
| SoftWrap.WrapParagraph | backend/apps/omnescode/src/app.rs:1948-1962 | the word loop computes the specified breaking |
| SoftWrap.SoftWrap | backend/apps/omnescode/src/app.rs:1945-1965 | re-reading the lines gives the words of the text, and each line fits or is a single word |
| HelpFilter.ShownExactly | backend/apps/omnescode/src/app.rs:1967-2010 | the entries shown are exactly those that match or lie in a matching section, in order |
| HelpFilter.SectionKept | backend/apps/omnescode/src/app.rs:1967-2010 | a section with one binding is kept exactly when the needle occurs in the lower-cased title, description, key or action; whole, or without its description when only the binding has it |
| HelpFilter.Idempotent | backend/apps/omnescode/src/app.rs:1967-2010 | filtering what was kept keeps it unchanged |
| HelpFilter.KeptPrunes | backend/apps/omnescode/src/app.rs:1967-2010 | what is kept is a pruning of the tree |
| HelpFilter.NeverAddsIff | backend/apps/omnescode/src/app.rs:1967-2010 | one query shows no entry another hides, for all trees, exactly when its needle contains the other's |
| HelpTyping.LowerCaseSettles | backend/apps/omnescode/src/app.rs:1968-1971 | lower-casing with the final-sigma rule gives a trimmed needle that lower-casing again leaves as it is |
| HelpTyping.TypingAddsIff | backend/apps/omnescode/src/app.rs:1967-2010 | one more typed character can show what was hidden exactly when the query ends in a capital sigma at the end of its word, the character is a cased letter, and the two needles are not both rows of sigmas |
| HelpTyping.SigmaAdds | backend/apps/omnescode/src/app.rs:1968-1971 | two Greek capitals and one more: the shortest query that shows it |
| NixComments.BlockTurn | backend/scripts/ci/comment_hygiene_gate.py:388-483 | a turn inside a block comment is the specified step |
| NixComments.OpenBlockTurn | backend/scripts/ci/comment_hygiene_gate.py:388-483 | a block comment that opens on a line is emitted to its end or to the end of the line |
| NixComments.NormalTurn | backend/scripts/ci/comment_hygiene_gate.py:388-483 | a turn in code: braces of interpolations, strings, comments |
| NixComments.MultiTurn | backend/scripts/ci/comment_hygiene_gate.py:388-483 | a turn in an indented string with its escapes |
| NixComments.DoubleTurn | backend/scripts/ci/comment_hygiene_gate.py:388-483 | a turn in a double-quoted string |
| NixComments.Scan | backend/scripts/ci/comment_hygiene_gate.py:388-483 | the scanner computes the specified run on every list of lines, and its stack stays well-formed |
| LineStreams.RunTextIsRunLines | backend/scripts/ci/comment_hygiene_gate.py:173-217 | for any scanner whose turns leave a suffix of their line: scanning line by line is scanning the text as one stream |
| NixTree.TextIsLines | backend/scripts/ci/comment_hygiene_gate.py:388-483 | the Nix scanner is such a scanner |
| NixTree.ReadCode | backend/scripts/ci/comment_hygiene_gate.py:388-483 | scanning a printed tree from any interpolation stack comes back to that mode and stack with exactly the tree's comments |
| NixTree.FileRoundTrip | backend/scripts/ci/comment_hygiene_gate.py:388-483 | the line scanner on a whole printed file |
| NixTree.BlockRejoins | backend/scripts/ci/comment_hygiene_gate.py:388-483 | the segments of a block comment, with their line ends put back, are its text |
| ShellHeredoc.ReadDelimiter | backend/scripts/ci/comment_hygiene_gate.py:241-280 | the delimiter loop with its quotes and escapes computes the specified word |
| ShellHeredoc.ParseShellHeredoc | backend/scripts/ci/comment_hygiene_gate.py:225-284 | the operator, the tab flag, the delimiter and the cursor |
| ShellHeredoc.SpellingReads | backend/scripts/ci/comment_hygiene_gate.py:241-280 | single-quoted, double-quoted with its four escapes, backslashed and bare spellings of a delimiter all read as it |
| ShellHeredoc.OperatorRoundTrip | backend/scripts/ci/comment_hygiene_gate.py:225-284 | a whole redirection parses back to its delimiter and tab flag with the cursor just past it |
| ShellComments.QuotedTurn | backend/scripts/ci/comment_hygiene_gate.py:306-335 | a turn inside arithmetic or quotes |
| ShellComments.UnquotedTurn | backend/scripts/ci/comment_hygiene_gate.py:337-384 | a turn in commands: openings, closings, redirections, comments |
| ShellComments.ScanLine | backend/scripts/ci/comment_hygiene_gate.py:304-384 | one line with its substitution stack and arithmetic depth |
| ShellComments.Scan | backend/scripts/ci/comment_hygiene_gate.py:287-385 | the scanner with its queue of waiting heredocs computes the specified run |
| ShellTree.RunTextIsRunLines | backend/scripts/ci/comment_hygiene_gate.py:287-385 | scanning line by line is scanning the text as one stream, heredoc bodies included |
| ShellTree.TerminatesIff | backend/scripts/ci/comment_hygiene_gate.py:295-302 | the scanner ends a body at exactly the lines that are the delimiter and a newline, after tabs where the operator strips them |
| ShellTree.TabbedDelimiter | backend/scripts/ci/comment_hygiene_gate.py:297-301 | tabs before the delimiter end a body exactly when the operator strips them or there are none |
| ShellTree.ReadBodies | backend/scripts/ci/comment_hygiene_gate.py:295-302 | waiting bodies, each up to the first line that is its delimiter, are consumed first in, first out; they emit nothing and leave quote, stack and depth alone, whatever is open |
| ShellTree.ReadScript | backend/scripts/ci/comment_hygiene_gate.py:287-385 | a balanced script in which no line ends inside quotes while a here-document waits returns to the quote, substitution stack and arithmetic depth it started in, with exactly its comments and waiting heredocs |
| ShellTree.MisreadScript | backend/scripts/ci/comment_hygiene_gate.py:294-302 | any other balanced script is misread: a line of it is taken for a here-document's while quotes or arithmetic are open |
| ShellTree.FileRoundTrip | backend/scripts/ci/comment_hygiene_gate.py:287-385 | the line scanner on every balanced script, here-document bodies spelled out: misread exactly when a line ends inside quotes while a here-document waits, read back otherwise |
| ShellTree.Swallowed | backend/scripts/ci/comment_hygiene_gate.py:294-302 | from any state, the lines up to the terminators of the waiting bodies are consumed, closing quotes included, and what was open stays open |
| ShellTree.QuotedOverLineEndMisread | backend/scripts/ci/comment_hygiene_gate.py:294-302 | a balanced script of four lines at whose end the scanner is still inside the quote |
| ShellTree.EscapedQuoteMisread | backend/scripts/ci/comment_hygiene_gate.py:337-384 | a quote after a backslash outside quotes is taken for one that opens |
| TomlComments.ConsumeTomlMultiline | backend/scripts/ci/comment_hygiene_gate.py:156-170 | where a multi-line string ends on a line, surplus quotes included, or that it does not |
| TomlComments.SkipBasicString | backend/scripts/ci/comment_hygiene_gate.py:198-207 | a string on one line is passed over, escapes honoured |
| TomlComments.Turn | backend/scripts/ci/comment_hygiene_gate.py:178-216 | one turn of the inner loop is the specified step |
| TomlComments.Scan | backend/scripts/ci/comment_hygiene_gate.py:173-217 | the scanner computes the specified run on every list of lines |
| TomlTree.TextIsLines | backend/scripts/ci/comment_hygiene_gate.py:173-217 | the TOML scanner, on one stream, reads what it reads line by line |
| TomlTree.ReadMulti | backend/scripts/ci/comment_hygiene_gate.py:156-184 | a multi-line string of either kind, over any number of lines, is read to its closing delimiter and no further |
| TomlTree.FileRoundTrip | backend/scripts/ci/comment_hygiene_gate.py:173-217 | a printed file of strings of all four kinds gives exactly its comments |
| RustComments.ScanBlock | backend/scripts/ci/comment_hygiene_gate.py:54-70 | the loop inside a block comment computes the specified end and depth |
| RustComments.ScanLine | backend/scripts/ci/comment_hygiene_gate.py:51-144 | a line with its block depth, raw-string end and string flag |
| RustComments.Scan | backend/scripts/ci/comment_hygiene_gate.py:43-145 | the scanner terminates and computes the specified run on every list of lines |
| RustComments.BlockScanDepth | backend/scripts/ci/comment_hygiene_gate.py:54-70 | the depth the scanner reaches is the nesting depth of the text it passed, above zero at every boundary before its end |
| RustComments.ReadOn | backend/scripts/ci/comment_hygiene_gate.py:54-70 | nesting depth is read on across a cut that splits no delimiter |
| RustComments.ScanLinks | backend/scripts/ci/comment_hygiene_gate.py:43-145 | every emitted segment lies on its line, after the one before, and goes on with the depth that one left |
| RustComments.BlockIsNested | backend/scripts/ci/comment_hygiene_gate.py:43-145 | the segments under one block id are consecutive lines and join to a comment open at every boundary before its end |
| RustComments.SpansIncrease | backend/scripts/ci/comment_hygiene_gate.py:43-145 | segments never overlap |
| RustComments.FileBlocks | backend/scripts/ci/comment_hygiene_gate.py:43-145 | in every file a block ends at depth zero or runs to the end of the file |
| RustStream.TextIsLines | backend/scripts/ci/comment_hygiene_gate.py:43-145 | with the columns of its comments left out, the Rust scanner reads on one stream what it reads line by line |
| RustTree.ReadBlock | backend/scripts/ci/comment_hygiene_gate.py:54-70 | a printed block comment, nested and over any number of lines, is read to its own closer and emitted line by line under one number |
| RustTree.FileRoundTrip | backend/scripts/ci/comment_hygiene_gate.py:43-145 | a printed file of strings, byte strings, raw strings, line comments and nested block comments gives exactly its comments and ends with nothing open |
| TextLines.SplitConcat | backend/scripts/migrate-skill-toml.py:83-83 | cutting the joined lines of a file gives the lines back |
| TextLines.ConcatSplitLines | backend/scripts/migrate-skill-toml.py:83-83 | joining the cut lines of a text gives the text back |
| SkillMigration.CutSections | backend/scripts/migrate-skill-toml.py:99-120 | sectioning by header lines |
| SkillMigration.SplitSkill | backend/scripts/migrate-skill-toml.py:135-150 | the lines of `[skill]` split into kept and moved, with the names of the moved keys |
| SkillMigration.Partition | backend/scripts/migrate-skill-toml.py:122-170 | every section stays, is split, or is renamed and set aside, in order |
| SkillMigration.AssembleLines | backend/scripts/migrate-skill-toml.py:182-207 | the sections that stay, with the forge block after the first `[skill]` or at the end |
| SkillMigration.AppendTableLines | backend/scripts/migrate-skill-toml.py:209-220 | the renamed tables, each after a blank line |
| SkillMigration.PlanMigration | backend/scripts/migrate-skill-toml.py:80-229 | the planner returns the migrated text and reports exactly what moved |
| MigrationLines.KeyNameIff | backend/scripts/migrate-skill-toml.py:51-51 | a line gives a key a value exactly when it is white space, the key, white space and an equals sign, then anything |
| MigrationLines.TableNameIff | backend/scripts/migrate-skill-toml.py:46-46 | a line is the header of a table exactly when it is its name in brackets, with white space around either |
| MigrationLines.ProvenanceIff | backend/scripts/migrate-skill-toml.py:28-51 | a line moves exactly when its key is one of the six, written out |
| MigrationLines.MovedSuffixIff | backend/scripts/migrate-skill-toml.py:38-41 | the tables renamed are `skill.requirements` and `skill.metadata` |
| MigrationMeaning.Ownership | backend/scripts/migrate-skill-toml.py:122-220 | which table owns which lines after the intended rewrite, for every table name |
| MigrationMeaning.Idempotent | backend/scripts/migrate-skill-toml.py:85-97 | planning on the migrated text leaves it unchanged, for every input |
| MigrationMeaning.MeansNewline | backend/scripts/migrate-skill-toml.py:193-197 | a newline at the end of a text changes none of its tables |
| MigrationMeaning.AddTable | backend/scripts/migrate-skill-toml.py:152-165 | a renamed table adds exactly itself, even with its header's line end lost, when only blank space follows it |
| MigrationMeaning.AssembleMeans | backend/scripts/migrate-skill-toml.py:182-207 | the assembled text has the staying tables with the forge table after the first `[skill]` |
| MigrationTheorem.MeaningKeptIff | backend/scripts/migrate-skill-toml.py:80-229 | the migrated text means the migrated tables exactly when no line of the input is glued to the next piece |
| MigrationTheorem.LinesKept | backend/scripts/migrate-skill-toml.py:80-229 | then every line but a header is kept once, in order, in the table it belongs to |
| MigrationTheorem.MovedExactly | backend/scripts/migrate-skill-toml.py:80-229 | where nothing is glued, the lines of `[skill]` with one of the six keys, written out, are those of `[forge]` afterwards, and no others leave it |
| MigrationTheorem.GluedChanges | backend/scripts/migrate-skill-toml.py:188-220 | a glued line costs the output a table |
| MigrationTheorem.GluedExample | backend/scripts/migrate-skill-toml.py:188-207 | two `[skill]` tables and a last line without its newline: an input that loses a table |
| MigrationTheorem.GluedHeaderExample | backend/scripts/migrate-skill-toml.py:152-220 | a moved sub-table whose header ends in a vertical tab: the other way to lose a table |
| FileTrees.Expand | backend/src/commands/update.rs:677-698 | replacing a directory on the stack by its entries uncovers exactly the directory |
| FileTrees.Drop | backend/src/commands/update.rs:677-698 | taking a path off the stack uncovers exactly what is at and below it |
| UpdateTrees.WalkFiles | backend/src/commands/update.rs:677-698 | every regular file that no unreadable directory or entry hides, exactly once, never through a link; it terminates |
| UpdateTrees.LocateMainBinary | backend/src/commands/update.rs:659-672 | a file of the name is returned exactly when one is listed |
| UpdateArtifacts.CopyEntries | backend/src/commands/update.rs:1360-1372 | one directory: files copied, directories stacked, the rest left out; it stops only at a call that does not work |
| UpdateArtifacts.CopyDirRecursive | backend/src/commands/update.rs:1350-1374 | on success the copy is exactly the source without links and special files; a directory is not copied only when a call does not work; only the destination is ever touched; it terminates |
| UpdateBinary.BackupName | backend/src/commands/update.rs:247-247 | the backup's name is the executable's with its extension, if it has one, replaced |
| UpdateBinary.BackupUntouched | backend/src/commands/update.rs:247-247 | the backup's name is never a sidecar's |
| UpdateBinary.SwapUnix | backend/src/commands/update.rs:847-856 | unlinked, then written; only the target changes; on success it is the new binary, and only a call that does not work fails it |
| UpdateBinary.SwapWindows | backend/src/commands/update.rs:858-880 | at every step the old binary is in place or aside, or the new one is in place; on failure it is in place, or aside when putting it back did not work |
| UpdateBinary.FillTarget | backend/src/commands/update.rs:868-880 | the same from the moment the old binary is aside |
| UpdateBinary.SweepStaleSidecars | backend/src/commands/update.rs:919-937 | removes sidecars only, never the target, and all of them when every call works |
| UpdateBinary.RollbackUnix | backend/src/commands/update.rs:882-890 | the backup is copied over the target whether it could be removed or not; only that copy can fail it, and nothing else changes |
| UpdateBinary.RollbackWindows | backend/src/commands/update.rs:892-905 | the target is moved aside, then the backup copied there; only that copy can fail it |
| UpdateArtifacts.SweepUpdateResidue | backend/src/commands/update.rs:947-974 | removes or prunes residue only, never the target; when every call works, no residue is left |
| UpdateArtifacts.RemoveEntry | backend/src/commands/update.rs:959-972 | a directory is removed as a tree, anything else as a file, and an entry of unknown kind as the one and then the other |
| UpdateArtifacts.SwapFileUnix | backend/src/commands/update.rs:1125-1164 | atomic: at every step the target is as it was or already the new file with its mode; a file staged in vain is removed, a success is swept up after |
| UpdateArtifacts.SwapFileWindows | backend/src/commands/update.rs:1176-1206 | at every step the old file is in place or aside, or the new one is in place; a locked target is moved aside rather than given up, and put back when that does not help |
| UpdateArtifacts.SwapAside | backend/src/commands/update.rs:1183-1206 | the same for a locked target |
| UpdateArtifacts.StageBundle | backend/src/commands/update.rs:1241-1259 | the bundle is moved whole, or else copied without links and special files; a copy that fails is removed; nothing else is touched |
| UpdateArtifacts.SwapBundle | backend/src/commands/update.rs:1261-1288 | what is found at the target is moved aside first; the old bundle is in place or aside until the new one is in place, and aside after a failure only when putting it back did not work |
| UpdateArtifacts.InstallWebDist | backend/src/commands/update.rs:1222-1289 | success leaves exactly the new tree, links lost only when it had to be copied; failure is some call's that did not work and leaves the old one in place, or aside when putting it back did not work |
| UpdateRun.InstallListed | backend/src/commands/update.rs:1041-1119 | of the archive's top-level files the companion on the allowlist is swapped in, once: left out or failed only when a call did not work; what was reported installed is in place, on Unix it was never anything but the old or the new file, and without an attempt nothing changes |
| UpdateRun.InstallCompanions | backend/src/commands/update.rs:997-1119 | touches nothing but the companion, the bundle and their residue; what it reports as installed is the staged artefact in place, and what the archive brings is installed unless a call did not work |
| UpdateRun.Prepare | backend/src/commands/update.rs:179-258 | up to validation the binary is never touched; on success the backup is the original and the staged binary is large enough and found sound; it fails only when a call did not work or the download is bad |
| UpdateRun.Commit | backend/src/commands/update.rs:260-318 | the backup holds until the smoke test has passed, and the new binary stays only if it did; after every failure the backup is copied back, and only that copy can fail the rollback; a commit that worked leaves the new binary, or the companion where the executable bears its name |
| UpdateRun.Complete | backend/src/commands/update.rs:293-304 | cleaning up and installing companions leaves the new binary in place, unless it bears the companion's name and the companion is installed: then it ends as the staged companion; backup gone, companion and bundle in place unless a call did not work |
| UpdateRun.Run | backend/src/commands/update.rs:179-319 | in every state up to the smoke test the original is in place or in the backup; then the validated binary is in place, or the companion's bytes for an executable of its name; an error has its cause and leaves the original unless copying the backup back was tried and failed |
| UpdateRun.ValidatedIff | backend/src/commands/update.rs:293-304 | on Unix the executable ends as the validated binary exactly when no companion took its place, or took it with the same bytes |
| RenamePlan.Walk | backend/scripts/rename_files_and_dirs.py:123-141 | every entry outside excluded directories and below none that cannot be listed, once |
| RenamePlan.VisitedIff | backend/scripts/rename_files_and_dirs.py:106-141 | the walk reaches an entry exactly when no component of its path is one of the fourteen excluded directories, or a link to one, and every directory above it can be listed |
| RenamePlan.SortDeepestFirst | backend/scripts/rename_files_and_dirs.py:143-144 | the same entries, deeper ones first, within one depth by the text of the path |
| RenamePlan.CollectRenameOps | backend/scripts/rename_files_and_dirs.py:113-169 | the plan renames exactly the entries whose new name differs and is free, each once, in that order |
| RenameEffect.ExecuteRenames | backend/scripts/rename_files_and_dirs.py:172-193 | the renames are carried out in order, those that fail are listed |
| RenameEffect.TurnOf | backend/scripts/rename_files_and_dirs.py:180-187 | on every tree: at an entry's turn only what was below it is below its path, and what is at its new path is all of one other entry |
| RenameEffect.RenameFree | backend/scripts/rename_files_and_dirs.py:180-187 | a planned rename to a path nothing has reached succeeds and moves exactly its entry |
| RenameEffect.RenameOnto | backend/scripts/rename_files_and_dirs.py:180-187 | a planned rename to a path a sibling has reached replaces that sibling when `rename` can, and otherwise fails and changes nothing |
| RenameEffect.PlanRuns | backend/scripts/rename_files_and_dirs.py:113-193 | every prefix of every plan leaves the original under the names given so far, without the entries renamed onto |
| RenameEffect.KeptIff | backend/scripts/rename_files_and_dirs.py:113-193 | every original entry is still there exactly when no entry is renamed onto another that it can replace, said of the siblings' names; then each is at its path under the names given |
| RenameEffect.FilesSilent | backend/scripts/rename_files_and_dirs.py:180-191 | files are renamed onto each other without an error |
| RenameEffect.PlanRenames | backend/scripts/rename_files_and_dirs.py:113-193 | nothing fails, nothing is lost and nothing is skipped exactly when no names clash, and then the final tree is the recursive map of names |
| RenameEffect.RenameAll | backend/scripts/rename_files_and_dirs.py:113-193 | collecting and executing on any tree: both conditions at once |
| RenameNames.RenamedSettles | backend/scripts/rename_files_and_dirs.py:23-103 | a renamed name is not renamed again: the four passes do not disturb one another |
| RenameNames.NamesSuffice | backend/scripts/rename_files_and_dirs.py:23-103 | with these names, different new names among siblings are all the plan needs |
| RenameSpellings.RenamedAround | backend/scripts/rename_files_and_dirs.py:23-103 | wherever one of the four spellings stands in a name, in whatever case, its new spelling, written out by case, stands in the new name, and nothing else changes |
| RenameNames.MixedPairLost | backend/scripts/rename_files_and_dirs.py:74-103 | two files side by side named `OMNESagent` and `omnesAGENT`: one is lost and no error is reported |

## Left out

- UpdateRun.Run: for an executable named like the companion's residue (`.zerocode.update-…`), which the companion's installation may sweep away, only an update that attempts no companion is shown to leave it in place; on Windows a companion that could not be installed may leave an executable of its name under the sidelined name.
- UpdateRun.DownloadRelease: the archive's entries are places of their own below the temporary directory; HTTP, checksums and unpacking are the environment's choice, and the temporary directory's removal at the end is not modelled.
- UpdateRun.ValidateBinary: architecture and `--version` are the environment's answer; only the size limit is in the model.
- UpdateRun.EnsureInstallDirWritable: whether the directory is writable is the environment's answer.
- UpdateDisk.Disk.Copy: a destination that is a symbolic link is replaced, not written through.
- UpdateArtifacts.InstallWebDist: which of the candidate directories is the target is a parameter.
- RenameEffect.ExecuteRenames: `rename` is the one of POSIX; on Windows, where it refuses every existing target, nothing is replaced.
- RustComments.FileBlocks: claims nesting of block comments, not that the 12-character look-ahead tells lifetimes from character literals.
- RustTree.FileRoundTrip: the grammar has no single quote outside strings and comments, for the same reason; the columns of comments are not part of it (`RustComments.ScanLinks` places them).
- ShellTree.ReadScript: the grammar has no backslash outside quotes, which the scanner does not take for an escape (`ShellTree.EscapedQuoteMisread`), and no `case` pattern inside a substitution, whose parenthesis it takes for the closing one.
- NixTree.ReadCode: the grammar has neither a dollar before an interpolation nor ambiguous runs of quotes.
- TomlTree.FileRoundTrip: the grammar has no unterminated strings.
- ConnectionLoop.Session.Run: a probe or reconnect that finished but is dropped untaken is not shut down by the loop and not claimed to be; the quickstart handoff is not modelled.
- HelpTyping.TypingAddsIff: the tables of Unicode (lower-casing of single characters, cased, case-ignorable) are parameters with the laws they meet.
- Python's tokenizer, the regular-expression detectors and the marking of continued comments in the comment gate.
- The path and source fields of a comment, which are copies of the input.
- Carriage returns in scanned and migrated files, which Python's universal newlines remove before the code sees them.
- File permissions other than the mode a copy carries; ownership, hard links, and locks other than as failures.
- Rendering, themes, localisation, key bindings, panes and RPC calls in the TUI.
- The command lines of the three scripts, their dry runs and their reports.
