# ibcmd-rs: verified models of its self-contained cores

This project models six pieces of the ibcmd-rs repository that can be understood on their own, and proves what each of
them is for. Verify it with `dafny verify dfyconfig.toml` (Dafny 4.11).

**Two text decoders** (`_onecdec/scsu_std.py`). The BOCU-1 reader is proved to undo the encoder of Unicode Technical
Note #6, which is written here as the specification; the inputs on which re-encoding gives the same bytes are
characterised exactly, and on them byte order is code-point order; what UTN #6 promises script by script is proved on
texts and bytes alone. The SCSU reader (Unicode Technical Standard #6) is a two-mode machine over eight movable windows;
it is proved against everything the standard lets a writer put down, choice by choice: the reader accepts exactly that
language, and a text written in it is read back exactly when no high surrogate stands loose before a low one. Both
readers are shown to refuse exactly where, and for what, the rest cannot go on.

**V8 containers** (`_onecdec/v8c.py`, `_onecdec/v8container.py`). Two writers append blocks, remember addresses and
patch the table of contents in place; two readers follow block chains, one stopping early. Reading inverts writing, with
the exact conditions (names ending in NUL, blocks laid out at the address that means "absent"), each tool reads what the
other wrote, and the two readers agree on every chain whose stated length is not negative. The 64-bit container, which has
a reader only, is read back from a layout of its own, alone and behind a 32-bit preamble. On any bytes at all it is proved
which header, chain and table the readers refuse and with which exception.

**Brace lists and the upgrade engine** (`_onecdec/upgrade_rules.py`, `_onecdec/upgrade_sim.py` and three scanners of
the same language). Parsing inverts printing exactly on well-formed trees, takes any layout of line breaks and blanks for
the same tree, and closes lists where the scanners do; the longest common subsequence is optimal, and of those the leftmost;
the edit script built on it is a bijection; rewriting the old tree with the recorded rules prints the new one, also after
rules counted over many pairs were tabulated and merged over lengths, under conditions on what merging reports and
meets; splitting and joining restores the source text.

**The issue-claim protocol** (`scripts/issue_claim_bot.py`). The plan of a command is a function of the first snapshot;
the controller is run in a world where, before every call, others may edit the board, and any call may fail before or
after its effect or lose a write. Proved are which issues a command is accepted on and what a refusal names, what the bot
may issue at all, what stands behind a success, what an interrupted command leaves for the next one, and what holds over
whole histories.

**Document framing** (`src/dcs_template_audit.rs`). Splitting is the exact inverse of framing, and two framed bodies are
equal exactly when their first four bytes are and the comparison finds no difference.

**The conversion ledger** (`src/conversion.rs`). A conversion succeeds exactly when every fallible step of its route
does; the report then or otherwise shows exactly how far it came. Which steps a job has and in what order they come is
stated place by place, apart from the routes.

Pure code is modelled by functions and lemmas. Loops that update variables are methods proved equal to a function, and
objects that change are classes: `V8Loops.Reader`, `ClaimWorld.World` and `ConversionLedger.ConversionReport`. DEFLATE
and JSON are parameters with an inverse-pair hypothesis (`V8Container.IsCodec`, `ClaimRecord.Faithful`); outside edits,
failures and the steps behind other crates are functions the theorems quantify over.

## Where the code does not keep a promise

Beside each stands the exact condition under which the promise holds.

- `docs/issue-self-service.md` says the other lines of the Agent field are preserved. Their text is, but for one line
  break at its end; the list of lines is not when the field ends in one of Python's rarer line breaks
  (`ClaimRecord.RareBreakAddsALine`) or the bot's line kept a lone CR and a lone LF apart (`ClaimRecord.LinesAreKeptIff`).
- The same page says a new comment continues an interrupted command. A release of an issue that was assigned by hand,
  interrupted after taking the assignee off, leaves a state in which every command is refused
  (`ClaimRecovery.UnrecordedReleaseIsStuck`); when a newer release works is `ClaimRecovery.UnclaimRecoversIff`.
- A comment in `perform` says the undo takes off only the assignment the bot just added. In a race lost to people among
  whom somebody else put the requester, it takes that assignment off as well (`ClaimBot.UndoIsBlind`); a lost race leaves
  the board as the others made it exactly when the requester was not among their assignees (`ClaimBot.Change`).
- Rules merged over lengths act as the rules they replace exactly when the first members agree
  (`Generalize.StarActsIffHeadsAgree`); they do for numeric tags, and need not otherwise: two derived rules without
  conflict or problem whose merged rule rewrites a list wrongly (`GeneralizeLimits.TextHeadsAreConfused`).
- The rule kept under a key is the first of those seen most often exactly when no rule that makes the same change towards
  another new tag comes after it (`DeriveRules.FrequentRuleIsKept`); otherwise even a rarer rule with another change can
  end up in the table (`GeneralizeLimits.RareRuleIsKept`).
- Names lose trailing NULs, elements at address 0x7fffffff are read as absent (`V8Repack.DataAtEndIsLost`), two lone
  surrogates are joined: the equivalences in `V8RoundTrip.ReadInvertsWrite`, `V8Repack.ReadInvertsWrite` and
  `Utf16.JoinInvertsSpelling`.
- An SCSU text that starts with the three Latin-1 characters the BOCU-1 signature is made of is taken for BOCU-1
  (`TextReader.SignatureIsTakenForMark`); every other text is read as what it is (`TextReader.WrittenImageIsRead`).

## Model

| member | source | states |
|---|---|---|
| `Bocu1.TrailValueIsTable` | _onecdec/scsu_std.py:94-95 | The ranges used for trail bytes are the source's 33-entry control table and its offset above it. |
| `Bocu1.TrailByteInverts` | _onecdec/scsu_std.py:94-95 | Each of the 243 digits has a trail byte that is read back as that digit. |
| `Bocu1.LeadOfRange` | _onecdec/scsu_std.py:117-127 | The six lead ranges tile all differences: the lead byte UTN #6 assigns to a difference falls in the branch that reads that range. |
| `Bocu1.ReadInvertsPack` | _onecdec/scsu_std.py:117-136 | A packed difference followed by anything is read as its code point, the new reference point and the right length. |
| `Bocu1.DecodeInvertsEncode` | _onecdec/scsu_std.py:106-138 | For every text of code points, decoding its UTN #6 encoding gives the text; where the reference points lie is fixed by the laws of `Bocu1Laws`. |
| `Bocu1Laws.ConstantsAreUtn6` | _onecdec/scsu_std.py:87-93 | The lead byte ranges and the reach of one, two and three bytes are the numbers of UTN #6. |
| `Bocu1Laws.SmallScriptsTakeOneByte` | _onecdec/scsu_std.py:99-103 | After any text, a code point behind another of the same block of 128 takes one byte, 0x50 and its place in the block, outside Hiragana, ideographs and Hangul. |
| `Bocu1Laws.HiraganaTakesOneByte` | _onecdec/scsu_std.py:99-100 | After any text, a Hiragana letter behind another takes one byte, U+3070 the byte 0x90. |
| `Bocu1Laws.HangulTakesTwoBytes` | _onecdec/scsu_std.py:102-102 | A Hangul syllable behind another takes at most two bytes, U+C1D1 the byte 0x90. |
| `Bocu1Laws.UnihanTakesTwoBytes` | _onecdec/scsu_std.py:101-101 | An ideograph behind another takes at most two bytes, U+4E00 the lowest pair there is, 25 01. |
| `Bocu1Laws.StartIsBasicLatin` | _onecdec/scsu_std.py:107-107 | A text starts as one in Basic Latin goes on. |
| `Bocu1Laws.ControlsStartAnew` | _onecdec/scsu_std.py:112-114 | A control code is written as itself, and what follows as at the start. |
| `Bocu1Laws.SpacesAreNotSeen` | _onecdec/scsu_std.py:112-114 | A space is written as itself and changes nothing else in the encoding. |
| `Bocu1Laws.ResetJoinsEncodings` | _onecdec/scsu_std.py:115-116 | Two encodings joined by the reset byte are read as the two texts joined. |
| `Bocu1Refusals.RefusedIff` | _onecdec/scsu_std.py:128-135 | An input is refused with an error if and only if behind an accepted text stands a multi-byte lead with that wrong: too few bytes left, a first byte that is no trail, or trails that lead out of the code points, each with its offset. |
| `Bocu1Refusals.FollowedAnew` | _onecdec/scsu_std.py:99-103 | Behind a text that ends in a control code or a space, however written but for a space written as itself, everything is read as at the start. |
| `Bocu1Order.DecodeYieldsCodePoints` | _onecdec/scsu_std.py:117-138 | Every value decoded is a code point, although the single-byte branch has no range check. |
| `Bocu1Order.ReencodesIffCanonical` | _onecdec/scsu_std.py:106-138 | On accepted inputs, encoding the text again gives the same bytes if and only if the input has no reset byte and no difference-coded code point at or below 0x20. |
| `Bocu1Order.EncodingIsCanonical` | _onecdec/scsu_std.py:106-138 | What the encoder writes meets that condition. |
| `Bocu1Order.EncodingPreservesOrder` | _onecdec/scsu_std.py:106-138 | Byte order of encodings is code-point order of the texts, both ways. |
| `Bocu1Order.CanonicalReadingKeepsOrder` | _onecdec/scsu_std.py:106-138 | On canonical inputs decoding is injective and keeps the order. |
| `Bocu1Reader.ReadTrails` | _onecdec/scsu_std.py:129-133 | The trail loop adds the value of the base-243 digits or stops at the first bad one. |
| `Bocu1Reader.ReadMultiByte` | _onecdec/scsu_std.py:119-135 | The multi-byte branch, with its truncation, trail and range errors, is one step of the decoder. |
| `Bocu1Reader.DecodeBocu1` | _onecdec/scsu_std.py:106-138 | The loop with `prev` and the growing output computes the decoding the theorems of `Bocu1`, `Bocu1Laws` and `Bocu1Refusals` are about, and only code points. |
| `Utf16.JoinInvertsUnits` | _onecdec/scsu_std.py:73-83 | Joining surrogate pairs undoes splitting into UTF-16 units if and only if no high surrogate code point stands before a low one. |
| `Utf16.JoinInvertsSpelling` | _onecdec/scsu_std.py:73-83 | The same when any choice of the code points beyond the basic plane stands whole and the others in two units. |
| `Utf16.ScalarsHaveNoLoosePair` | _onecdec/scsu_std.py:73-83 | Texts of Unicode scalar values always meet that condition. |
| `Utf16.JoinStaysInRange` | _onecdec/scsu_std.py:73-83 | Joining never leaves the code points. |
| `Utf16.JoinUnits` | _onecdec/scsu_std.py:73-83 | The index loop computes the joining function. |
| `Scsu.Step` | _onecdec/scsu_std.py:30-68 | Every tag leaves a valid machine (eight windows clear of the surrogates and within the code points) and consumes at least one byte, no more than there are. |
| `Scsu.StepEmitsCodePoints` | _onecdec/scsu_std.py:30-68 | What a tag emits is a code point, and a surrogate only where a 16-bit unit is spelled out. |
| `Scsu.DecodeYieldsCodePoints` | _onecdec/scsu_std.py:20-83 | Every accepted byte string decodes to code points. |
| `Scsu.DecodeInvertsUnicode` | _onecdec/scsu_std.py:53-70 | SCU followed by UTF-16 units, any choice of them quoted with UQU position by position, is read back as the text if and only if it has no loose surrogate pair. |
| `Scsu.DecodeKeepsLatin1` | _onecdec/scsu_std.py:33-36 | Latin-1 text without control codes decodes to itself. |
| `ScsuWriter.PlaceByteInverts` | _onecdec/scsu_std.py:5-17 | The byte the standard gives a window position is exactly the byte that is read as that position; the others are reserved. |
| `ScsuWriter.ItemIsStep` | _onecdec/scsu_std.py:30-68 | Each item a writer may put down in a state (a byte of Basic Latin or of the active window, a quote, a selection, a placed window, a spelled unit, a change of mode) is read as what it says, leaving the state it leaves. |
| `ScsuWriter.DecodeInvertsItems` | _onecdec/scsu_std.py:20-83 | From the initial windows of the standard, named by their scripts, any text written item by item with any choices is read back if and only if it has no loose surrogate pair. |
| `ScsuWriter.AcceptedIsItems` | _onecdec/scsu_std.py:30-68 | Whatever bytes are accepted are those of some items, which say what was read. |
| `ScsuWriter.AcceptedIffWritten` | _onecdec/scsu_std.py:20-70 | So the reader accepts exactly the language of the standard. |
| `ScsuWriter.RefusedIff` | _onecdec/scsu_std.py:26-70 | Bytes are refused with an error if and only if they are whole items and then a rest with that wrong: a proper prefix of an item, a tag no item starts with, or a window byte that places no window, with the offset of the rest. |
| `TextReader.SingleByteTurn` | _onecdec/scsu_std.py:31-52 | One turn of the loop in single-byte mode, assigning to the window list, is one step of the machine. |
| `TextReader.UnicodeTurn` | _onecdec/scsu_std.py:53-68 | The same in Unicode mode. |
| `TextReader.DecodeScsu` | _onecdec/scsu_std.py:20-70 | The loop over bytes with its window list, active window, mode and output computes the decoding the theorems of `ScsuWriter` are about. |
| `TextReader.BomIsEncodedMark` | _onecdec/scsu_std.py:96-96 | The BOCU-1 signature is the encoding of a byte order mark before any text. |
| `TextReader.ImageReadersAgree` | _onecdec/scsu_std.py:141-143 | Through the one entry point, BOCU-1 images behind a mark and SCSU images in Unicode mode are both read back. |
| `TextReader.WrittenImageIsRead` | _onecdec/scsu_std.py:141-143 | Through the entry point, any SCSU text that does not start with the three characters U+00FB U+00EE U+0028 is read back if and only if it has no loose pair. |
| `TextReader.SignatureIsTakenForMark` | _onecdec/scsu_std.py:141-143 | The text of those three characters is read as a byte order mark. |
| `Lcs.WalkIsLongest` | _onecdec/upgrade_rules.py:72-87 | The pairs strictly increase in both components and match equal elements, and no such pairing is longer. |
| `Lcs.WalkIsLeftmost` | _onecdec/upgrade_rules.py:79-87 | Of all longest pairings the walk gives the one that takes the earliest places of the second list. |
| `Lcs.FillTable` | _onecdec/upgrade_rules.py:75-78 | The table filled from its far corner holds the optimum for every pair of suffixes. |
| `Lcs.LongestCommon` | _onecdec/upgrade_rules.py:72-87 | Table fill and greedy walk together return an optimal pairing. |
| `Edits.CommonIsOrdered` | _onecdec/upgrade_sim.py:23-26 | A common pairing gives anchors in strictly increasing order within both lists. |
| `Edits.ScanIsComplete` | _onecdec/upgrade_sim.py:18-36 | When there is a script, common pairs and changed pairs together map all old positions in increasing order onto exactly the new positions that are not inserted. |
| `Edits.ScanPutsSurplusLast` | _onecdec/upgrade_sim.py:30-34 | Between two anchors the inserted members are those behind the changed ones. |
| `Edits.ScriptIffRoomy` | _onecdec/upgrade_sim.py:21-29 | There is a script if and only if every gap has at least as many new members as old ones. |
| `Edits.Gap` | _onecdec/upgrade_sim.py:26-35 | One gap between anchors contributes its changed pairs and insertions, or refuses the script. |
| `Edits.Gaps` | _onecdec/upgrade_sim.py:24-36 | The loop over anchors computes the whole script. |
| `Edits.ComputeEdits` | _onecdec/upgrade_sim.py:18-36 | `edits` gives the script of the two lists, None when the difference is not insert-only. |
| `UpgradeRules.KeyOfIsInjective` | _onecdec/upgrade_sim.py:79-80 | Parent tag, own tag and length (or the length-free key) never share a rule key. |
| `UpgradeRules.KeyTexts` | _onecdec/upgrade_sim.py:79-80 | A key is tag, tag and decimal length between bars, `None` without a tag and `*` for any length. |
| `UpgradeRules.UnnamedStays` | _onecdec/upgrade_sim.py:124-126 | A member that no slot names with its text stays. |
| `UpgradeRules.NamedIsSet` | _onecdec/upgrade_sim.py:124-126 | A member that has the text its only slot names gets the new text. |
| `UpgradeRules.SortedIsSorted` | _onecdec/upgrade_sim.py:130-130 | Sorting gives the same pairs in order of position and then of text. |
| `UpgradeEngine.InsertingRebuilds` | _onecdec/upgrade_sim.py:130-131 | Inserting values at ascending final positions rebuilds the list they and the kept members came from. |
| `UpgradeFindings.FindingsAre` | _onecdec/upgrade_sim.py:39-59 | A rule or problem is recorded for a pair of trees if and only if some pair of lists reached through changed members tells it: unaligned when it has no script, changed shape for a member that is text on one side, otherwise one rule with exactly its changed texts and insertions. |
| `UpgradeEngine.EngineReproduces` | _onecdec/upgrade_sim.py:39-59 | If only rules are recorded for a pair of trees and every list of the old tree has exactly the script its key names, rewriting the old tree prints the new one. |
| `UpgradeLoops.CollectMembers` | _onecdec/upgrade_sim.py:49-56 | The loop over changed members appends what belongs to each pair and gathers the slots. |
| `UpgradeLoops.CollectInto` | _onecdec/upgrade_sim.py:39-59 | The recursion that appends to `out` adds exactly the findings of the pair. |
| `UpgradeLoops.Rewrite` | _onecdec/upgrade_sim.py:123-132 | Slot assignment, append and insert on the copied list compute the rule's effect. |
| `UpgradeLoops.ApplyRules` | _onecdec/upgrade_sim.py:115-132 | The bottom-up rewriting, keyed by the tag a list had before its members changed. |
| `Generalize.TabulateIsTable` | _onecdec/upgrade_sim.py:86-95 | The table has a row for every key found, under its own key, and only rows that were found. |
| `Generalize.OrderGrows` | _onecdec/upgrade_sim.py:95-95 | Keys keep the place of their first insertion. |
| `GeneralizeKeys.FreeRuleIff` | _onecdec/upgrade_sim.py:97-112 | There is a length-free rule for a parent and a tag if and only if two append-only rows of different lengths have them and all such rows append the same values and share the new tag. |
| `Generalize.SomeSeenMost` | _onecdec/upgrade_sim.py:91-95 | Every key found has a row seen more often than those of the key before it and no less often than those after it. |
| `Generalize.MostSeenIsKept` | _onecdec/upgrade_sim.py:91-95 | Where no row is found twice, that row is the one kept under the key if and only if no later row of the key makes the same change. |
| `Generalize.NoConflictsIffAgree` | _onecdec/upgrade_sim.py:91-95 | No conflict is reported if and only if rows of one key all record the same change, and then the row kept records the change of each. |
| `Generalize.ConflictsAreDisagreements` | _onecdec/upgrade_sim.py:92-92 | Every conflict reported is a pair of found rows of that key whose changes differ. |
| `Generalize.AppendedRowActs` | _onecdec/upgrade_sim.py:97-101 | An append-only rule on a list of its length sets its slots and appends its values. |
| `Generalize.StarActsIffHeadsAgree` | _onecdec/upgrade_sim.py:102-111 | On a list of a merged length the length-free rule acts as the row did if and only if both leave the same first member. |
| `Generalize.GeneralizedLookup` | _onecdec/upgrade_sim.py:120-120 | After merging, a list finds its own row's rule, or the length-free rule of the group that row was merged into. |
| `Generalize.GeneralizedActsAlike` | _onecdec/upgrade_sim.py:96-112 | For every row, tagged or not, a list of its length is rewritten by the generalized table as by the row if and only if the row was not merged or leaves the first member its group's first row leaves. |
| `Generalize.NumericHeadsAgree` | _onecdec/upgrade_sim.py:96-112 | For numeric old and new tags that is always so. |
| `GeneralizeDerived.CollectIsOk` | _onecdec/upgrade_sim.py:57-59 | Every rule `collect` records sets the tag it names, inserts upwards and has lengths that add up. |
| `GeneralizeDerived.TabulatedRowsOk` | _onecdec/upgrade_sim.py:86-95 | So a table of recorded rules meets the hypotheses of the merging theorems. |
| `GeneralizeDerived.ListActsAlike` | _onecdec/upgrade_sim.py:119-132 | The generalized and the plain table rewrite a list the same way if and only if its own row passes that test or, without a row, no length-free rule reaches it but an idle one. |
| `GeneralizeDerived.TreesActAlike` | _onecdec/upgrade_sim.py:115-132 | The two tables rewrite a whole tree the same way if and only if they rewrite every list of it the same way. |
| `GeneralizeDerived.NumericIsCovered` | _onecdec/upgrade_sim.py:115-132 | It is enough that merged rows are numeric on both sides and no length-free rule reaches a list without a row. |
| `GeneralizeDerived.TableFitsIff` | _onecdec/upgrade_sim.py:83-95 | With no conflicts, the table of everything counted gives every list of a counted pair exactly its own script if and only if no list without a script has its key in the table. |
| `GeneralizeDerived.GeneralizedReproduces` | _onecdec/upgrade_sim.py:83-132 | From recorded rules to the new tree: everything recorded for the pair is rules and was counted, no conflict is reported, no list without a script has its key in the table and the two tables meet on the tree; then rewriting the old tree with the generalized table prints the new one. |
| `DeriveRules.TallyIsCount` | _onecdec/upgrade_sim.py:64-76 | The counter holds every item seen once, with the number of times it was seen. |
| `DeriveRules.FoundIsCount` | _onecdec/upgrade_sim.py:62-76 | The rows `generalize` goes through are the rules recorded over all pairs, each once, with the number of times it was recorded. |
| `DeriveRules.FoundIsOk` | _onecdec/upgrade_sim.py:62-76 | Every row derived has numeric or absent tags, insertions running upwards, the new tag it names set, and lengths that add up: what the theorems on merging ask for. |
| `DeriveRules.FrequentRuleIsKept` | _onecdec/upgrade_sim.py:86-95 | Of the derived rules of a key, the first seen most often is kept if and only if none that makes the same change towards another new tag comes after it. |
| `DeriveRules.DeriveReproduces` | _onecdec/upgrade_sim.py:62-150 | Rules derived from any list of pairs and generalized without conflict turn every old tree into its new one for which only rules were recorded, whose lists without a script have no key in the table, and on which the merged table meets the plain one; nothing is assumed of the rules. |
| `DeriveRules.Derive` | _onecdec/upgrade_sim.py:62-76 | The loops over pairs and findings count rules and problems apart; there is no problem if and only if only rules were recorded. |
| `DeriveRules.Verify` | _onecdec/upgrade_sim.py:135-155 | The loop counts the pairs and those whose old tree is rewritten into the new one. |
| `DeriveRules.DeriveAndVerify` | _onecdec/upgrade_sim.py:158-176 | Deriving, generalizing and verifying on the same pairs: without conflicts, and with every pair as above, every row comes out equal. |
| `GeneralizeLimits.RareRuleIsKept` | _onecdec/upgrade_sim.py:91-95 | Six pairs of lists after which the rule kept under a key is seen less often than another of that key and makes another change. |
| `GeneralizeLimits.TextHeadsAreConfused` | _onecdec/upgrade_sim.py:102-111 | Two pairs of lists whose rules are derived without conflict or problem and rewrite the second rightly, while the merged rule does not. |
| `GeneralizeLoops.Collate` | _onecdec/upgrade_sim.py:86-95 | First loop: conflicts are empty if and only if rows of one key agree; every row kept is then one that serves all of its key. Of rows found once, the first seen most often is kept if and only if no later row of its key makes the same change. |
| `GeneralizeLoops.Group` | _onecdec/upgrade_sim.py:97-101 | Second loop: the append-only rows grouped by parent tag and tag. |
| `GeneralizeLoops.GeneralizeRules` | _onecdec/upgrade_sim.py:83-112 | All three loops compute the table the theorems are about, and report no conflict if and only if rows of one key agree. |
| `BraceText.ParsedIsWellFormed` | _onecdec/upgrade_rules.py:19-57 | Whatever text is accepted, the tree read is of non-empty lists with trimmed, quote-balanced leaves. |
| `BraceText.ParseInvertsRender` | _onecdec/upgrade_rules.py:19-63 | A printed list is read back whole, with nothing left over, if and only if it is such a tree. |
| `BraceText.ParseIsStable` | _onecdec/upgrade_rules.py:19-63 | Printing what was read from any accepted text and reading again gives the same tree. |
| `BraceTree.NumericIs` | _onecdec/upgrade_rules.py:66-69 | A text is numeric if and only if it is minus signs, possibly none, and then one or more digits. |
| `BraceTree.TagIs` | _onecdec/upgrade_rules.py:66-69 | A list has a tag if and only if its first member is such a text. |
| `BraceLayout.ParseIgnoresBreaks` | _onecdec/upgrade_rules.py:50-51 | A text and the same text without its line breaks outside quotes are read as the same tree or refused alike. |
| `BraceLayout.BlanksOfBasicLatin` | _onecdec/upgrade_rules.py:44-44 | The blanks trimmed are, in Basic Latin, the ten characters `str.strip` takes. |
| `BraceLayout.StripIs` | _onecdec/upgrade_rules.py:44-44 | Trimming takes off exactly the blanks at both ends. |
| `BraceLayout.LayoutIsRead` | _onecdec/upgrade_rules.py:38-55 | A list in any layout of its fields is read: text before a nested list is dropped, text behind one is a member of its own, and a leaf is the trimmed text of its field. |
| `BraceLayout.ReaderAndScannersClose` | _onecdec/upgrade_rules.py:19-57 | On any text, what the reader finishes the scanners close at the same offset, what it finds unterminated they do not close, and it gives up if and only if quotes open right behind a nested list, line breaks aside. |
| `BraceReader.ParseAt` | _onecdec/upgrade_rules.py:19-57 | The loop with `items`, `cur`, `quoted` and `i`, recursive at nested lists, gives the tree and the next index, or the error the source raises. |
| `BraceScanners.JoinInvertsSplit` | _onecdec/make_upgrade_fixtures.py:118-146 | For every list that closes, joining the fields gives its exact source slice. |
| `BraceScanners.SplitFields` | _onecdec/make_upgrade_fixtures.py:118-142 | The scanner with doubled-quote lookahead finds the fields plain quote parity defines. |
| `BraceScanners.SplitTrimmed` | _onecdec/make_old_root_fixtures.py:35-59 | The trimming scanner finds the same fields, trimmed. |
| `BraceScanners.FieldSpans` | _onecdec/spike_adapter.py:12-32 | The span scanner finds the same spans and the offset of the closing brace. |
| `BraceLanguage.NodeIsSkipped` | _onecdec/make_upgrade_fixtures.py:118-142 | A nested printed tree is passed over without changing depth or field. |
| `BraceLanguage.SplitAgreesWithParse` | _onecdec/make_upgrade_fixtures.py:118-142 | Wherever a well-formed list stands printed, the scanners cut it into the prints of its members and the parser reads those members. |
| `Numbers.HexIsRead` | _onecdec/v8c.py:47-47 | A number printed in hexadecimal, padded or not, has that value digit by digit. |
| `Numbers.PlainIsParsed` | _onecdec/v8c.py:47-47 | Among the blanks, signs, prefixes and underscores `int(s, 16)` takes, plain digits are read as such. |
| `Numbers.SignIsParsed` | _onecdec/v8c.py:47-47 | A sign in front is taken, minus turning the number round. |
| `Numbers.PrefixIsParsed` | _onecdec/v8c.py:47-47 | So is the prefix 0x. |
| `Numbers.BlanksAreCut` | _onecdec/v8c.py:47-47 | Blanks around the digits are taken off. |
| `Numbers.NoNumber` | _onecdec/v8c.py:47-47 | No digits, or an underscore at either end, is no number. |
| `Numbers.Hex8` | _onecdec/v8c.py:100-102 | A 32-bit number takes exactly eight digits and is parsed back. |
| `Numbers.Hex16` | _onecdec/v8c.py:42-42 | A 64-bit number takes exactly sixteen digits and is parsed back. |
| `Numbers.LeIsRead` | _onecdec/v8c.py:122-122 | A number that fits its bytes survives little-endian packing. |
| `Numbers.LeIsWritten` | src/dcs_template_audit.rs:295-305 | Reading little-endian bytes and writing them again is exact. |
| `V8Chain.EarlyStopIsStable` | _onecdec/v8c.py:36-53 | Once the early-stopping reader has an answer, a longer bound changes nothing. |
| `V8Chain.FullChainIsStable` | _onecdec/v8container.py:17-29 | The same for the reader that follows to the end. |
| `V8Chain.ReadersAgree` | _onecdec/v8container.py:17-29 | On every chain `read_block` follows to its end, the early-stopping `V8.block` returns the same bytes if and only if the stated length is not negative, or nothing follows the first block, or nothing is left of either. |
| `V8Chain.BlockIsRead` | _onecdec/v8c.py:100-102 | A written block is read back by both readers wherever it stands, padding included. |
| `V8Chain.ChainIsRead` | _onecdec/v8c.py:36-53 | A chain of any number of blocks, wherever they stand and in either width, is read as their bytes in order, cut to the length the first header states. |
| `V8Container.StoredIsRead` | _onecdec/v8c.py:64-71 | A body stored deflated or, being a container, as it is comes back unchanged, for both values of `deflate_all`. |
| `V8RoundTrip.NameIsRead` | _onecdec/v8c.py:60-61 | The name of a written element header is the name less trailing NULs. |
| `V8RoundTrip.EntriesAreRead` | _onecdec/v8c.py:55-62 | Table rows and blocks laid out one after the other are listed as the entries written, in order. |
| `V8RoundTrip.ReadInvertsWrite` | _onecdec/v8c.py:105-124 | An image of at most 4 GiB with no Format16 container found in it gives back exactly the entries; names and bodies are unchanged if and only if no name ends in NUL. |
| `V8Format16.WideBlockIsRead` | _onecdec/v8c.py:39-43 | A block with sixteen-digit fields is read back wherever it stands. |
| `V8Format16.WideRowIsRead` | _onecdec/v8c.py:57-59 | A row of three 64-bit numbers gives the address of the header and then that of the body. |
| `V8Format16.ListingOfImage16` | _onecdec/v8c.py:55-71 | An opened 64-bit container laid out as the format says lists exactly its elements. |
| `V8Format16.BaseIsFound` | _onecdec/v8c.py:20-25 | A 64-bit image is found behind a preamble if and only if the whole mark lies in the first 64 KiB and does not occur before; only a caller who asks for the primary container gets it. |
| `V8Format16.AloneIsRead` | _onecdec/v8c.py:20-71 | Standing alone, a 64-bit image is read back. |
| `V8Format16.PrimaryIsRead` | _onecdec/v8c.py:20-71 | Behind a preamble it is found and read back under that condition, addresses counted from its own start. |
| `V8Bytes.HexIsLower` | _onecdec/v8c.py:100-102 | Header fields are written in lower-case digits. |
| `V8Bytes.BlockShape` | _onecdec/v8c.py:100-102 | A block is its header, its data, and zeros up to the page. |
| `V8Bytes.EmptyImage` | _onecdec/v8c.py:105-124 | The image of no entries, byte by byte. |
| `V8Bytes.WrittenSize` | _onecdec/v8c.py:100-121 | `write15` takes a page of 512 bytes at least for every header and body. |
| `V8Bytes.RepackedSize` | _onecdec/v8container.py:45-64 | A compact file holds no padding; a padded one a page at least for the table and for each element's data, and none for headers. |
| `V8Bytes.ContainersAreKept` | _onecdec/v8c.py:64-71 | A body that starts like a container of either width is stored and returned as it is. |
| `V8Bytes.NameIsFound` | _onecdec/v8container.py:70-71 | `name_of` finds the exact name in a header `write15` made, trailing NULs included. |
| `V8Refusals.LooseRefusals` | _onecdec/v8c.py:44-48 | A 31-byte header is refused if and only if it lacks its first line break or one of three fields is no number; nothing else in it is looked at. |
| `V8Refusals.WideRefusals` | _onecdec/v8c.py:39-43 | The same for 55-byte headers. |
| `V8Refusals.OpenRefusals` | _onecdec/v8c.py:20-33 | An image is refused if and only if it starts with neither mark and no primary container is found in it. |
| `V8Refusals.BlockIff` | _onecdec/v8c.py:36-53 | `V8.block` returns or raises something if and only if, behind blocks of the chain that are neither last nor enough, stands one that is, or one that cannot be read. |
| `V8Refusals.ListingIs` | _onecdec/v8c.py:55-71 | The listing is row by row name and body, as many as there are whole rows; or the failure of the first block that fails, header before body. |
| `V8Loops.Reader.constructor` | _onecdec/v8c.py:26-34 | The fields of an opened container. |
| `V8Loops.Reader.PieceOf` | _onecdec/v8c.py:38-50 | One block of a chain with its header checks, in both widths. |
| `V8Loops.Reader.Block` | _onecdec/v8c.py:36-53 | The chain loop gives the bytes or the exception of the early-stopping reader. |
| `V8Loops.Reader.Entries` | _onecdec/v8c.py:55-71 | The listing loop gives every entry with its body, in table order, or the first exception. |
| `V8Write.PackTable` | _onecdec/v8c.py:122-122 | Packing succeeds if and only if every address fits 32 bits, and stops at the first that does not. |
| `V8Write.SmallImagesFit` | _onecdec/v8c.py:105-124 | Every image of at most 4 GiB can be written. |
| `V8Write.PatchIsLayout` | _onecdec/v8c.py:123-123 | Patching header and table into the placeholder block changes no length and no other byte, and gives the block written with the table at hand. |
| `V8Write.Write15` | _onecdec/v8c.py:105-124 | The writer fails if and only if the version or an address does not fit or a name has a lone surrogate, and otherwise returns the layout the round trip is about. |
| `V8Repack.ElementsAreRead` | _onecdec/v8container.py:36-42 | Elements laid out one after the other are read back, absent data included. |
| `V8Repack.ReadInvertsWrite` | _onecdec/v8container.py:32-67 | For files of at most 4 GiB, padded or compact, reading returns the same meta and elements if and only if nothing but an empty header was laid out at 0x7fffffff. |
| `V8Repack.SmallFilesAreRead` | _onecdec/v8container.py:32-67 | Up to 0x7fffffff bytes that is always so. |
| `V8Repack.CompactingKeepsElements` | _onecdec/v8container.py:50-67 | For files of at most 4 GiB the padded and the compact layout read the same if and only if the same things are laid out at 0x7fffffff in both; a layout read right is read the same in the other if and only if that one is. |
| `V8Repack.DataAtEndIsLost` | _onecdec/v8container.py:40-64 | A writable file whose one element has its data laid out at 0x7fffffff and read as absent. |
| `V8CrossRead.RepackerReadsWrite15` | _onecdec/v8container.py:32-42 | The repacking tool reads an image of `write15` of at most 4 GiB as page 512, the version given and every element as stored, if and only if no block of an element begins at 0x7fffffff. |
| `V8CrossRead.V8ListsRepacked` | _onecdec/v8c.py:55-71 | `V8` lists a file the repacking tool wrote, padded or compact, in order, when every element has data and no 64-bit container is found in it. |
| `V8Refusals.StrictRefusals` | _onecdec/v8container.py:22-24 | `read_block` refuses a header if and only if one of its two line breaks is missing or one of three fields is no number. |
| `V8Refusals.ReadBlockIff` | _onecdec/v8container.py:17-29 | `read_block` returns or raises something if and only if the blocks of the chain reach its end with these bytes, or stop at one that cannot be read. |
| `V8Refusals.ElementsAre` | _onecdec/v8container.py:36-41 | The elements are those of the whole rows of the table, in order, data absent exactly at address 0x7fffffff; or there is the first failure. |
| `V8Refusals.FileIs` | _onecdec/v8container.py:32-42 | A file shorter than its header is refused; otherwise page, version and last word come from it and the elements from its table. |
| `V8RepackLoops.PieceAt` | _onecdec/v8container.py:22-27 | One block with both line breaks checked. |
| `V8RepackLoops.FollowChain` | _onecdec/v8container.py:17-29 | The loop over `addr` gives the bytes or the exception of the full-chain reader. |
| `V8RepackLoops.ReadElements` | _onecdec/v8container.py:36-41 | The loop over table rows reads every element or stops at the first exception. |
| `V8RepackLoops.Read` | _onecdec/v8container.py:32-42 | The whole reader, a short file included. |
| `V8RepackLoops.HeadOfBlock` | _onecdec/v8container.py:66-66 | The slice of the block the patch takes is its header and the table. |
| `V8RepackLoops.Write` | _onecdec/v8container.py:50-67 | Appending and patching succeed if and only if meta and addresses fit 32 bits, and give the layout of the round trip. |
| `AgentLines.LinesOfFlat` | scripts/issue_claim_bot.py:106-106 | Cutting joined lines gives the lines back, except that a lone CR before a lone LF becomes one break. |
| `AgentLines.LinesAreWellCut` | scripts/issue_claim_bot.py:81-81 | `splitlines` loses no character, and its lines have the shape that is used. |
| `AgentLines.TenBreaks` | scripts/issue_claim_bot.py:81-81 | Lines break at exactly the ten characters `splitlines` knows. |
| `ClaimRecord.RecordIsReadBack` | scripts/issue_claim_bot.py:80-113 | `owned_record` of what `with_record` builds is the record written. |
| `ClaimRecord.SeveralIff` | scripts/issue_claim_bot.py:80-85 | The field is refused for several records if and only if two of its lines are the bot's, and has none if and only if no line is. |
| `ClaimRecord.RecordIff` | scripts/issue_claim_bot.py:80-101 | A record is read if and only if exactly one line is the bot's and its text parses to that record, whose logins, numbers and status can be; any other field with a line of the bot's is refused. |
| `ClaimRecord.ForeignTextIsKept` | scripts/issue_claim_bot.py:104-113 | The text of all other lines survives a command character for character, but for one line break at its end. |
| `ClaimRecord.LastRecordWins` | scripts/issue_claim_bot.py:104-113 | Writing a second record over a first is writing the second alone. |
| `ClaimRecord.LinesAreKeptIff` | scripts/issue_claim_bot.py:106-108 | The other lines, breaks included, are unchanged but for a break added to an unfinished last line if and only if no lone CR and lone LF came to touch and the text does not end in a rarer break. |
| `ClaimRecord.RareBreakAddsALine` | scripts/issue_claim_bot.py:107-108 | A field that ends in U+2028 gains an empty line. |
| `ClaimPlan.AgentChanges` | scripts/issue_claim_bot.py:387-388 | An admitted command always has a new Agent text to write, and its record is what is read there. |
| `ClaimPlan.PrefixesAreOnTheWay` | scripts/issue_claim_bot.py:381-388 | After any prefix of its writes the board is between start and goal, assignment first, status next, Agent text last; it is at the goal exactly after all of them. |
| `ClaimPlan.WriteChanges` | scripts/issue_claim_bot.py:381-388 | No write is idle on the state it is made on, and assignees change first, only for the requester. |
| `ClaimPlan.FoldIgnoresCase` | scripts/issue_claim_bot.py:329-329 | Logins fold alike if and only if they differ in the case of letters at most. |
| `ClaimPlan.GoesIff` | scripts/issue_claim_bot.py:321-353 | A command goes if and only if the issue is open, unlocked and has no record as new, the new record fits, and: a claim, nobody assigned in Backlog or Ready, or the requester alone in Backlog, Ready or In progress; a release, the requester alone, or nobody with a record naming the requester, in Ready, In progress or In review; a review request, the requester alone in In progress or In review with a good pull request. Its goal is assignee, status and record of the command. |
| `ClaimPlan.AlreadyFreeIff` | scripts/issue_claim_bot.py:341-343 | A release finds nothing to do if and only if nobody is assigned, the issue is Ready and no record names the requester. |
| `ClaimPlan.RefusalNamesFirst` | scripts/issue_claim_bot.py:321-354 | A command is refused for a reason if and only if that is wrong with it and nothing looked at earlier is. |
| `ClaimRecovery.ClaimRecovers` | scripts/issue_claim_bot.py:332-340 | However far a claim got, a newer claim of the same login is accepted if and only if its record fits, and reaches the goal. |
| `ClaimRecovery.PartialClaimIsReleased` | scripts/issue_claim_bot.py:341-349 | A claim that got anywhere can be released if and only if the record fits and the status has left Backlog. |
| `ClaimRecovery.UnclaimRecoversIff` | scripts/issue_claim_bot.py:340-349 | However far a release got, a newer one of the same login frees the issue if and only if it is free and Ready with no record naming that login, or the first had not begun or found a record naming it and the newer record fits. |
| `ClaimRecovery.UnrecordedReleaseIsStuck` | scripts/issue_claim_bot.py:332-353 | A release nobody's record covers, stopped after its first write, leaves every command refused. |
| `ClaimRecovery.ReviewRecovers` | scripts/issue_claim_bot.py:350-353 | However far a review request got, a newer one with a good pull request is accepted if and only if its record fits. |
| `ClaimRecovery.RecordedIdsIncrease` | scripts/issue_claim_bot.py:326-328 | Over any history of complete or interrupted commands and maintainers' edits, the recorded request ids strictly increase. |
| `ClaimRecovery.OldCommandsAreRefused` | scripts/issue_claim_bot.py:326-328 | After any history a comment not newer than the last recorded one is refused. |
| `ClaimRecovery.ForeignTextIsKeptForever` | scripts/issue_claim_bot.py:104-113 | Over any history of commands the others' text stays, but for one line break at its end. |
| `ClaimRecovery.WholeCycle` | scripts/issue_claim_bot.py:321-398 | On an open, unlocked issue nobody is assigned to, in Backlog or Ready, with no record as new and room for the three: claim, review and release are each accepted and end in a free, Ready issue with one bot line. |
| `ClaimWorld.PostIsSound` | scripts/issue_claim_bot.py:411-411 | A pending receipt for an unknown command keeps the invariant of runs. |
| `ClaimWorld.WritesAreSound` | scripts/issue_claim_bot.py:410-416 | So do the board writes of a command announced by its receipt and newer than all that wrote before. |
| `ClaimWorld.PatchIsSound` | scripts/issue_claim_bot.py:417-424 | So does replacing the outcome of a receipt. |
| `ClaimWorld.World.Issue` | scripts/issue_claim_bot.py:281-288 | A board write with its effect, or failing before or after it, or lost. |
| `ClaimBot.WriteHides` | scripts/issue_claim_bot.py:359-370 | Two boards become one under a write if and only if they differ only in what it writes. |
| `ClaimBot.UndoRestoresIff` | scripts/issue_claim_bot.py:372-376 | Taking the requester off again restores the board found if and only if the requester was not assigned on it. |
| `ClaimBot.UndoIsBlind` | scripts/issue_claim_bot.py:372-376 | Races lost to others, with the requester put among them or not: both look alike to the bot and end without the requester, which is the board the others made only in the one case. |
| `ClaimBot.Change` | scripts/issue_claim_bot.py:356-379 | A guarded write issues at most that write and, after a lost race, the removal of its own requester; success means the state read back is the target. When others edit between guard and write and then stop, it succeeds if and only if they touched only what it writes, the board is left as the write, or its undo, leaves it, and after a lost race that is the board the others made if and only if the requester was not among their assignees. |
| `ClaimBot.Next` | scripts/issue_claim_bot.py:381-388 | The plan's next write extends the confirmed prefix by one, or leaves a failure the plan accounts for. |
| `ClaimBot.CarryOut` | scripts/issue_claim_bot.py:381-392 | The writes in order; success only with all of them confirmed and the goal read last. |
| `ClaimBot.Perform` | scripts/issue_claim_bot.py:321-398 | Under any outside edits and failures the bot issues a prefix of the plan made from its first snapshot, each write right after reading the state it builds on, plus at most the undo; success means the last snapshot equals the goal, or the board read showed an issue already free. With no outside editor the board is the start after some prefix. With no failure either, the goal is reached if and only if the board is one the command is for, and otherwise the command stops with the board as it was. |
| `ClaimBot.IssuedIsInBounds` | scripts/issue_claim_bot.py:356-388 | Everything issued, the undo included, adds or removes the requester only, sets status and Agent text only to their goals, and keeps the others' text of the snapshot read before. |
| `ClaimBot.Attempt` | scripts/issue_claim_bot.py:412-416 | Board writes happen only in single-writer mode and with every registered receipt older; with no outside editor and no failure what comes out follows from mode, receipts and board. |
| `ClaimBot.Run` | scripts/issue_claim_bot.py:400-424 | Keeps the invariant of runs; a known command writes nothing and is a duplicate or a mismatch by its digest; a new one gets its receipt first, and a success receipt only behind a last board read that is the goal, or one on which the issue was already free. With no outside editor and no failure the outcome is a function of receipts, mode and board. |
| `ClaimBot.Conclude` | scripts/issue_claim_bot.py:417-424 | The outcome that replaces the pending receipt is success, refusal or error as the attempt ended, or the receipt stays pending because replacing it failed. |
| `ClaimBot.Repeated` | scripts/issue_claim_bot.py:402-408 | A command with a receipt ends as a duplicate if the digests agree and with an exception otherwise, and only such a command does. |
| `DcsFraming.DocumentIsCut` | src/dcs_template_audit.rs:308-312 | With 64-bit offsets a document is cut exactly when its length is left; wrapping round never yields one. |
| `DcsFraming.DocsRemain` | src/dcs_template_audit.rs:306-314 | From any index the documents found are those the rest of the table and of the bytes describe, and only those. |
| `DcsFraming.SplitInvertsFrame` | src/dcs_template_audit.rs:295-316 | Splitting gives a list of documents if and only if the bytes are four bytes of anything, the count, the lengths and these documents, at least two of them. |
| `DcsFraming.SplitDocuments` | src/dcs_template_audit.rs:295-316 | The loop that advances `offset` computes the splitting. |
| `DcsComparison.CompareStored` | src/dcs_template_audit.rs:240-293 | The report says for primary, settings and terminal whether they are equal, and names the first difference and where it parts. |
| `DcsComparison.NoShapeIff` | src/dcs_template_audit.rs:264-291 | No difference is reported if and only if counts match and every document is counted as equal. |
| `DcsComparison.ByteEqualIff` | src/dcs_template_audit.rs:240-293 | Two framed bodies are byte-equal if and only if their first four bytes match and the comparison finds the same number of documents, all equal. |
| `ConversionLedger.ConversionReport.constructor` | src/conversion.rs:185-224 | A new report: all phases pending, nothing planned, published or wrong. |
| `ConversionLedger.ConversionReport.Mark` | src/conversion.rs:226-232 | Marking changes the status of that phase and of no other. |
| `ConversionLedger.ConversionReport.Failure` | src/conversion.rs:1593-1611 | A failure books one diagnostic with its code, phase, message and path, and fails that phase. |
| `ConversionLedger.ConversionReport.TryAll` | src/conversion.rs:270-300 | A stretch of steps of one phase goes through, or its first failing step is booked with the ledger of that moment. |
| `ConversionLedger.ConversionReport.MigrateTree` | src/conversion.rs:633-697 | The migration loop tries each file's steps in order and lists exactly the files migrated, the failing one if it has a report. |
| `ConversionLedger.ConversionReport.EncodeTree` | src/conversion.rs:699-758 | The encoding loop tries each file's steps in order and yields every file. |
| `ConversionLedger.ConversionReport.ConvertXmlToXml` | src/conversion.rs:559-810 | On success every metadata file has its migration and as many entries come out as went in; on failure the first failing step of the route is the one booked. |
| `ConversionLedger.ConversionReport.ConvertXmlToCf` | src/conversion.rs:812-1033 | The same for XML to CF, with or without a base. |
| `ConversionLedger.ConversionReport.ConvertCfToXml` | src/conversion.rs:1035-1216 | The same for CF to XML. |
| `ConversionLedger.ConversionReport.ConvertCfToCf` | src/conversion.rs:1218-1332 | The same for repacking a CF. |
| `ConversionLedger.ConversionReport.RefuseRoute` | src/conversion.rs:325-334 | An unsupported route fails planning with every earlier phase pending. |
| `ConversionLedger.Convert` | src/conversion.rs:259-335 | A conversion is ok if and only if every fallible step of its route passes; then five phases are completed, the last completed or skipped, and an output published exactly outside dry runs; otherwise the first failing step is the one error, its phase alone failed, and nothing is published. Plan, adapter, migrations and counts in the report are those of the route and of how far it came. |
| `ConversionLedger.DryRunForetells` | src/conversion.rs:782-809 | On the same inputs a dry run succeeds if and only if the real run reaches publication; otherwise both stop at the same step after the same ones. |
| `ConversionLedger.OneFailure` | src/conversion.rs:1593-1611 | In the ledger of a failure exactly one phase is failed and every later one pending. |
| `ConversionRoutes.JobIs` | src/conversion.rs:259-1332 | A job has exactly the steps the table of places gives it, in the one order of phases, files and places. |
| `ConversionRoutes.InOrderIsStrict` | src/conversion.rs:259-1332 | So no step comes twice and phases never fall back. |
| `ConversionRoutes.ChecksPrecedePublishing` | src/conversion.rs:559-1332 | Outside dry runs publishing is the last step of every supported route, behind a validation of the target and the check of the destination. |

## Left out

- V8Chain.ReadersAgree: chains are followed for a bounded number of blocks, because the source does not stop on a cycle of empty pages; every result is independent of the bound once there is an answer.
- V8RoundTrip.ReadInvertsWrite: requires that no Format16 container is found in the image (`BaseOf` is 0), which depends on the bytes DEFLATE produces.
- V8CrossRead.V8ListsRepacked: for files whose elements all have data; `V8` knows no absent data. No Format16 container may be found in the file, as above.
- V8Format16.ListingOfImage16: the source has no writer of 64-bit containers; the layout follows the description at the head of `_onecdec/v8c.py`.
- V8Container.NameOf: malformed UTF-16 gets one replacement character a bad unit; Python's decoder may group them differently.
- V8Write.Write15: takes entries as a sequence, which allows repeated names; the source takes a dictionary.
- Reading stores into rows, JSON files of rules and the printing of mismatches (`_onecdec/upgrade_sim.py`): file plumbing around the functions modelled; pairs are the parsed rows that differ.
- BraceTree.Tag: a tag is ASCII digits; Python's `isdigit` also accepts other digits.
- BraceReader.ParseAt: recursion depth is not bounded; Python stops at its recursion limit.
- ClaimPlan.Admit: the command text and the body of a pull request are parsed elsewhere; a request carries the command recognised, and a pull request is good or not.
- ClaimPlan.Fold: lower-cases ASCII letters, which is what `casefold` does to a login.
- ClaimRecord.OwnedRecord: JSON text is opaque; `load` stands for parsing a text with exactly the five expected keys and types.
- ClaimWorld.World: receipts are written by the bot alone and all of them are listed; paging, HTTP, GraphQL, snapshot parsing and `authorize` are not modelled, nor is the wording of messages.
- ClaimBot.Run: ignored events end before it; a request reaches it authorised.
- DcsComparison.CompareStored: reports role, index and offset of the first difference; the text window shown to the user is not modelled.
- DcsFraming.DocumentIsCut: models the release build, where addition wraps; a debug build stops with a panic instead.
- ConversionLedger.Convert: routes between EDT and XML live in a module of their own and are not modelled; what happens inside a step (decoding, compiling, writing files) is its passing or failing, and the code, message and path told of it are given from outside.
- `src/compatibility.rs`, `scripts/audit_release.py`, `scripts/generate_sbom.py`, `scripts/ci_scope.py` and `scripts/compare-sql-ut11.py`: direct checks and set bookkeeping, which would only add easy members.
- `src/dump_sources.rs`, `src/cli.rs` and the re-export modules: subprocess, file and command-line plumbing.
- The fixture makers, comparison scripts and probes of `_onecdec` apart from the functions modelled: they run the 1C platform or walk directories.
