# JSON engine and the services that stand on it

A Dafny model of the parts of a small cell / radio unit software platform that are decided by visible code: its JSON
engine, and four services that keep state over whole runs. Every member below is proved for all inputs and all runs
that its contract admits; where the source admits more, the member is named under "Left out".
Memory comes from `Memory.Hooks`, any of whose requests may be refused, or from a flag or a count that says what malloc
gives; where the model assumes memory instead, this is said under "Left out".

The code of this repository changes things in place, so the operations are methods on arrays and on classes with the
source's own fields. Each method is proved equal to a function of its input or of the old state, and the properties
are lemmas about those functions; that is why most rows come in pairs.

**JSON (`common/cJSON.c`).**

| module | what it holds |
|---|---|
| `Bytes`, `JsonValue` | bytes, C strings, "text `w` stands in `s` at `o`"; trees as values |
| `Utf`, `StringLiteral`, `Numbers` | the tokens: `\u` literals and UTF-8, the two passes over a string, numbers |
| `Grammar`, `ParseSteps` | what the recursive descent computes: a value and an end, or the offset of the error |
| `Shifted` | what parsing reads: a literal up to its quote, and any text the same way wherever it stands |
| `JsonText`, `RoundTrip` | what a tree prints to, and that parsing gives back a tree that the text tells from all others |
| `Reparse` | what parsing gives for the text of any tree, and printing for any text that parses |
| `Memory`, `Printer`, `PrintApi` | allocation that may be refused at any call; the growable print buffer; the print calls |
| `Nodes`, `Trees`, `Parser` | nodes with `next`/`prev`/`child`, who owns what; delete, duplicate, the parser as it runs |
| `Siblings`, `Children` | append, insert, detach and replace on a list of children whose head's `prev` is the last one, as sequences and as owned trees |
| `Building`, `Reprint` | creating nodes and adding them to objects; printing and parsing again in memory |
| `Compare`, `CompareNodes` | comparison on values, and as it walks nodes that may be shared |
| `Minify`, `MinifyText`, `MinifyExact` | the in-place minifier, and exactly what it does to printed trees |

A tree in memory is described by a `Forest`, which names every node and block. `Built` says that the links run both
ways and that nothing is owned twice; `Owned` is what `cJSON_Delete` releases, so the same set appears in the
contracts of the parser, of `cJSON_Duplicate` and of `cJSON_Delete`, and allocation is conserved across them.

**Services.** `Alarms` and `Scheduler` are the hardware monitor (its checks over any run of readings, and its two
threads as interleaved steps); `SysConf` and `ConfScript` are the daemon's saved configuration; `FruImage`, `Fru` and
`HexText` are the checksummed areas of a FRU EEPROM; `Cli` and `CliParam` are the command list and the command-line
splitter.

**Where the code and its documentation part.** The model follows the code.

- `cJSON_PrintPreallocated`: cJSON.h:161-163 advises five bytes more than needed. Two bytes more than `strlen` are
  enough and necessary (`PrintApi.PrintPreallocated`).
- `cJSON_Minify` takes the `\"` in `\\"` for an escaped quote, so a string that ends in a backslash stays open.
  `MinifyExact.MinifiedPrint` gives the exact trees this hurts.
- `cJSON_Compare`: an object with a repeated name may differ from itself, except through the pointer shortcut
  (`Compare.RepeatedNameDiffersFromItself`; `Compare.EqualToItself` says exactly when). With distinct names the answer
  is equality up to order.
- `add_item_to_array` leaves the `next` link of the new item as it was (common/cJSON.c:2000-2031), so a list results
  exactly when that link is NULL or the list was empty (`Siblings.AddItemToArray`).
- A FRU area with a format version that the header does not place is stored over the header, by loading a JSON
  description and by every storing setter (`FruImage.UnplacedAreaOverwritesHeader`, `Fru.SetterOverwritesHeader`; the
  exact conditions are `FruImage.HeaderSurvives`, `FruImage.StoredIsReadExactly` and `Fru.HeaderAfterSetter`).
- An interval that expires while its node still waits for the checker, or is being checked, is lost
  (`Scheduler.ExpiryBeforeRunIsLost`, `Scheduler.ExpiryDuringRunIsLost`); `Scheduler.RunsEqualExpiries` says exactly
  when none is.
- A command registered with a capital letter can hide another one (`Cli.CapitalsHideAName`): names are sorted by
  case and matched without it. `Cli.ExactNameIsExecuted` gives the exact condition.
- A configuration file may hold a key twice. sys_conf_get then finds the last value, sys_conf_set changes that one,
  and after saving and loading the other one is found (`SysConf.RepeatedKeyChanges`, `SysConf.SavedComesBack`).

## Model

| member | source | states |
|---|---|---|
| `Reparse.PrintedTextParsesBack` | common/cJSON.c:1133-1210 | Parsing what cJSON_Print or cJSON_PrintUnformatted wrote gives the tree's normal form (types, members in order with duplicates, strings, numbers), whatever its `valueint` fields were, and ends at the NUL, if the tree nests at most 1000 deep; if it nests deeper, parsing fails |
| `Reparse.NormalPrintsTheSame` | common/cJSON.c:1411-1482 | The normal form is as much as the text tells: `valueint` recomputed from the number, NULL strings and names as empty ones, no names in arrays. It has the same text |
| `Reparse.TextTellsNormalForm` | common/cJSON.c:1133-1298 | Two trees that nest at most 1000 deep have the same text exactly if they have the same normal form |
| `Reparse.FaithfulIsNormal` | common/cJSON.c:1411-1482 | A tree with its strings there, names exactly in objects and `valueint` as cJSON_CreateNumber sets it is its own normal form, so it comes back as it was |
| `Reparse.AcceptedTextReprints` | common/cJSON.c:1133-1298 | Every text the parser accepts, printed again in either format, parses to the normal form of what was read from it, if its numbers are plain integers; the nesting limit is never in the way |
| `Reparse.ParsedIsWellFormed` | common/cJSON.c:1350-1755 | Whatever is parsed has its strings, names exactly in objects, and nests at most 1000 deep |
| `Reprint.PrintAndParse` | common/cJSON.c:1133-1298 | In memory: printing the nodes of a tree and parsing the text gives new nodes of its normal form unless it nests too deeply or its text is too long; with them, or on failure, nothing else stays allocated |
| `Reparse.ValueReadsBack` | common/cJSON.c:1350-1408 | The same for a value inside any text, at any depth and format, when a delimiter follows it |
| `Reparse.ArrayReadsBack` | common/cJSON.c:1485-1580 | A printed array is read back and its bracket consumed; at the nesting limit it is refused |
| `Reparse.ObjectReadsBack` | common/cJSON.c:1645-1755 | A printed object is read back with its names in order, whatever the layout; at the nesting limit it is refused |
| `RoundTrip.NameReadsBack` | common/cJSON.c:1701-1721 | A printed name and its colon are read back up to the value |
| `StringLiteral.QuotedReadsBack` | common/cJSON.c:811-1058 | For every NUL-free string, parse_string on the printed literal gives the string and stops just past the closing quote |
| `StringLiteral.EscapeReadsBack` | common/cJSON.c:967-1058 | The scan finds the end of any escaped text and unescaping it gives the text |
| `StringLiteral.EscapeByteReadsBack` | common/cJSON.c:1011-1052 | Each escape denotes the byte it was written for and is stepped over whole by both passes |
| `StringLiteral.Resync` | common/cJSON.c:826-921 | However far the unescaping pass runs ahead, the scanning pass stops there or one byte later and has counted one unit for every two bytes skipped |
| `StringLiteral.StepFits` | common/cJSON.c:859-921 | No step of the unescaping pass writes more than what the scan counted, and none passes the closing quote by more than one byte, bad digits after `\u` included |
| `StringLiteral.ScanString` | common/cJSON.c:826-855 | The scan finds the first quote that is not escaped, or that there is none, and counts the characters and escapes before it |
| `StringLiteral.UnescapeInto` | common/cJSON.c:856-923 | Within a block of the counted size and two more bytes the second pass writes the unescaped string and its NUL, or stops at the offending byte; its pointer ends at most one past the quote |
| `Shifted.ReadsUpToQuote` | common/cJSON.c:826-921 | Neither pass reads in front of the literal or past its closing quote: with other bytes there the answer is the same |
| `StringLiteral.BadIsInside` | common/cJSON.c:925-936 | A failing escape is reported inside the literal |
| `Utf.ParseHex4` | common/cJSON.c:653-686 | The value of four hexadecimal digits, 0 if one of them is not a digit |
| `Utf.Utf16LiteralToUtf8` | common/cJSON.c:690-808 | The literal is rejected, or the UTF-8 form of what it denotes is written and nothing else; no accepted code point is too large |
| `Utf.EncodeUtf8` | common/cJSON.c:753-802 | Writing continuation bytes backwards gives the UTF-8 form of section 3 of RFC 3629 |
| `Utf.Utf8Decodes` | common/cJSON.c:753-802 | A decoder that accepts only shortest forms gets the code point back |
| `Utf.MaskIsArithmetic` | common/cJSON.c:745-802 | The shifts and masks of the source are the arithmetic of the model on every 32-bit value |
| `Utf.AcceptedIsUtf16` | common/cJSON.c:690-751 | An accepted literal spells the UTF-16 form of its code point, section 2.1 of RFC 2781, which is no surrogate |
| `Utf.ScalarIsAccepted` | common/cJSON.c:690-751 | Every code point that is no surrogate, spelled in UTF-16, is accepted as itself |
| `Utf.PairOf` | common/cJSON.c:744-745 | Each surrogate pair is the UTF-16 form of the code point computed for it |
| `Utf.LoneSurrogateIsRejected` | common/cJSON.c:707-742 | A surrogate is accepted exactly as the first half of a complete pair |
| `Numbers.DecimalReadsBack` | common/cJSON.c:345-418 | A printed integer of at most 15 digits is read back as that number, with the int form saturated, and nothing more is consumed |
| `Numbers.StrtodOfDecimal` | common/cJSON.c:393-397 | The decimal text of an integer is converted whole and exactly |
| `Numbers.DigitsAreDigits` | common/cJSON.c:609-610 | The digits printed are digits without a leading zero and have the value of the number |
| `Numbers.ReadNumber` | common/cJSON.c:345-418 | The value, the saturated int and the length of the number token, or failure, for any bytes |
| `Numbers.CopyHexNumber` | common/cJSON.c:300-342 | The run copied, and how far the offset moves: not at all when nothing ended the run within 63 bytes |
| `Grammar.HexStops` | common/cJSON.c:300-342 | Reading a hexadecimal number stops inside a buffer that ends in NUL |
| `Grammar.NumberStops` | common/cJSON.c:345-418 | Reading a number stops inside a buffer that ends in NUL |
| `Grammar.EndsBeforeNul` | common/cJSON.c:826-855 | A string literal ends before the final NUL |
| `Parser.ParseWithLengthOpts` | common/cJSON.c:1133-1210 | For any NUL-terminated bytes and any refused allocations: a tree exactly if the grammar accepts and nothing was refused, with the grammar's value and end; otherwise NULL, an error position inside the buffer and the live set of the start |
| `Parser.ParseRoot` | common/cJSON.c:1148-1209 | The same from the allocation of the root on; a tree owns exactly the blocks allocated for it |
| `Parser.ParseBuffer.ParseValue` | common/cJSON.c:1350-1408 | The node gets the value that the grammar gives at this offset and depth, its children are linked and all new, and the offset is the grammar's; on failure nothing stays allocated |
| `Parser.ParseBuffer.ParseArray` | common/cJSON.c:1485-1580 | The same for an array, with the nesting limit and the offset decrements |
| `Parser.ParseBuffer.ParseObject` | common/cJSON.c:1645-1755 | The same for an object |
| `Parser.ParseBuffer.ParseElements` | common/cJSON.c:1519-1577 | The loop makes a linked list of the grammar's elements, with the last node behind the head's `prev`; when any part fails all nodes of the loop are released |
| `Parser.ParseBuffer.ParseMembers` | common/cJSON.c:1677-1752 | The same for members with their names |
| `Parser.ParseBuffer.NewChild` | common/cJSON.c:1522-1541 | A new node joins the end of the list, or nothing changes when it is refused |
| `Parser.ParseBuffer.ParseName` | common/cJSON.c:1701-1717 | The string read is moved to the name field, which then owns it; a failure leaves no block behind |
| `Parser.ParseBuffer.ParseLiteral` | common/cJSON.c:811-936 | Both passes: a new block with the string, or the error offset and the block given back |
| `Parser.ParseBuffer.ParseNumber` | common/cJSON.c:345-418 | The node and the offset get what the grammar says of the number, and stay as they are when there is none |
| `Parser.ParseBuffer.ParseNumberHex` | common/cJSON.c:300-342 | The same for hexadecimal numbers |
| `Parser.ParseBuffer.SkipWhitespace` | common/cJSON.c:1076-1099 | The offset moves to the first byte above 32, and steps back to the last byte at the end of the buffer |
| `Shifted.MarkIsSkipped` | common/cJSON.c:1102-1115 | A byte order mark in front of a text changes nothing but the offsets, which grow by three, in success and in failure |
| `Shifted.ValueLater` | common/cJSON.c:1350-1408 | What is parsed at an offset depends on nothing in front of it: behind any other text the answer is the same, so much later |
| `Printer.PrintBuffer.Ensure` | common/cJSON.c:479-564 | Room exactly if the limit allows it and no allocation is refused; the text survives, a growth more than doubles the buffer or reaches INT_MAX, and the bytes copied so far stay below its length, or below twice INT_MAX once it has that size (`CopiedLittle`, part of `Valid`) |
| `Printer.PrintBuffer.Token` | common/cJSON.c:1411-1475 | A token is stored exactly if it fits with what is reserved behind it; nothing in front of it or behind the reservation is written |
| `Printer.PrintBuffer.UpdateOffset` | common/cJSON.c:567-577 | The text behind the offset is counted up to its NUL |
| `Printer.PrintBuffer.PrintNumber` | common/cJSON.c:587-650 | The decimal text of the number, possible exactly with two bytes to spare |
| `Printer.PrintBuffer.PrintString` | common/cJSON.c:940-1059 | The length counted by the first pass is what the second one writes: the quoted text, with NULL as the empty string |
| `Printer.PrintBuffer.StoreEscaped` | common/cJSON.c:998-1058 | The second pass writes the quoted text and its NUL, and nothing outside the last reservation |
| `Printer.PrintBuffer.PrintValue` | common/cJSON.c:1411-1482 | Walks the nodes: succeeds exactly if the tree is printable, its text with two bytes to spare is within the limit, and no allocation is refused; then its text is appended; other memory is untouched |
| `Printer.PrintBuffer.PrintArray` | common/cJSON.c:1583-1642 | The same for an array: no request inside it asks for more than its own text and two bytes |
| `Printer.PrintBuffer.PrintElements` | common/cJSON.c:1606-1630 | The same for the loop, commas included |
| `Printer.PrintBuffer.PrintObject` | common/cJSON.c:1758-1869 | The same for an object, braces and indentation included |
| `Printer.PrintBuffer.PrintMembers` | common/cJSON.c:1785-1849 | The same for the loop over members |
| `PrintApi.Print` | common/cJSON.c:1225-1298 | A block of exactly the text and its NUL, or NULL and nothing left allocated; it fails only for unprintable trees, refused allocations and texts near INT_MAX |
| `PrintApi.PrintBuffered` | common/cJSON.c:1300-1327 | The same text whatever the size of the first buffer, 0 included; a negative size fails |
| `PrintApi.PrintPreallocated` | common/cJSON.c:1330-1347 | True exactly if the buffer has two bytes more than strlen of the text; the same text; nothing behind the buffer is written and nothing allocated |
| `Memory.Hooks.NewItem` | common/cJSON.c:237-246 | A cleared node that is live, or NULL |
| `Memory.Hooks.Reallocate` | common/cJSON.c:528-540 | The contents move to a new block, or the old block stays |
| `Trees.Delete` | common/cJSON.c:249-270 | Each owned node and string is released exactly once; constant names and what references point to are left alone |
| `Trees.Duplicate` | common/cJSON.c:2732-2813 | A disjoint tree with the same contents and constant names shared, exactly if no allocation is refused; otherwise NULL and the live set of the start |
| `Trees.DuplicateChildren` | common/cJSON.c:2776-2802 | The copies are in order and linked both ways, the head's `prev` being the last; after a refusal what was made is still a list that can be released |
| `Trees.CopiedShowsTheSame` | common/cJSON.c:2732-2813 | A copy denotes the same values and contains no reference |
| `Trees.CopyText` | common/cJSON.c:184-203 | A new block with the same string, or the block itself when it is shared |
| `Trees.Link` | common/cJSON.c:1972-1976 | Linking a node behind the last one keeps the list built |
| `Trees.Close` | common/cJSON.c:1562-1564 | A finished list gets its head's `prev` and stays built |
| `Siblings.FinishedListIsLinked` | common/cJSON.c:1562-1564 | The lists made by the parser and by cJSON_Duplicate satisfy what the list operations need: `next` ends in NULL, `prev` inverts it, the head's `prev` is the last, no node twice |
| `Siblings.GetArrayItem` | common/cJSON.c:1895-1912 | The node at that index of the sequence, or NULL |
| `Siblings.AddItemToArray` | common/cJSON.c:2000-2031 | Appends to the sequence exactly if the list was empty or the item's `next` was NULL; refuses NULL and the parent itself |
| `Siblings.InsertItemInArray` | common/cJSON.c:2307-2334 | Inserts into the sequence before that index, or appends beyond the end; a negative index changes nothing |
| `Siblings.DetachItemViaPointer` | common/cJSON.c:2231-2265 | Removes the node from the sequence and clears its links |
| `Siblings.DetachItemFromArray` | common/cJSON.c:2267-2275 | The same by index; an index outside changes nothing |
| `Siblings.RelinkReplacement` | common/cJSON.c:2348-2378 | The replacement takes the place of the node in the sequence |
| `Siblings.ReplaceItemViaPointer` | common/cJSON.c:2336-2383 | The same, and all that the old node owns is released |
| `Siblings.InsertedThenRemoved` | common/cJSON.c:2231-2334 | Detaching undoes inserting, and appending beyond the end |
| `Children.AppendTree` | common/cJSON.c:2000-2031 | On whole trees: the parent owns the new last child as well, its list is finished again, and nothing is owned twice, so cJSON_Delete releases each block once |
| `Children.InsertTree` | common/cJSON.c:2307-2334 | The same for a child put in at any place |
| `Children.DetachTree` | common/cJSON.c:2231-2265 | What the child and all below it own is no longer the parent's, and both parts are finished trees |
| `Children.ReplaceTree` | common/cJSON.c:2336-2383 | What the child owned is released and the parent owns the replacement instead |
| `Children.LinkedIsBuilt` | common/cJSON.c:1562-1567 | Where the links run through nodes whose own parts are built, the list is built |
| `Building.CreateString` | common/cJSON.c:2494-2509 | A node with a new copy of the string, or NULL and nothing allocated; no node is made of NULL |
| `Building.CreateNumber` | common/cJSON.c:2468-2492 | A node with the number and its saturated int |
| `Building.AddItemToObject` | common/cJSON.c:2055-2090 | Exactly if no memory is refused the item gets a copy of the name and is the last member; otherwise object and item are as they were |
| `Building.AddObjectToObject` | common/cJSON.c:2207-2217 | A new empty object as the last member, or NULL and nothing allocated |
| `Compare.Symmetric` | common/cJSON.c:3012-3135 | The answer does not depend on the order of the two trees, repeated names and missing texts included |
| `Compare.EqualIsSame` | common/cJSON.c:3012-3135 | With distinct names and integers below 2^52 the trees compare equal exactly if they are the same up to the order of members |
| `Compare.CloseIsEqual` | common/cJSON.c:580-584 | compare_double tells integers below 2^52 apart |
| `Compare.EqualToItself` | common/cJSON.c:3036-3040 | A tree is equal to itself by the member-by-member answer, so the pointer shortcut agrees, exactly if nothing is missing in it and each repeated member is equal to the first of its name |
| `Compare.Reflexive` | common/cJSON.c:3036-3040 | With distinct names that is always so |
| `Compare.RepeatedNameDiffersFromItself` | common/cJSON.c:3094-3130 | An object with a repeated name that differs from itself |
| `CompareNodes.Compare` | common/cJSON.c:3012-3135 | On nodes: for trees that share none, the answer for their values, repeated names and missing texts included; for trees that share some, the same answer where names are distinct |
| `CompareNodes.AnswerIsSymmetric` | common/cJSON.c:3012-3135 | The walk over the nodes gives the same answer in both orders |
| `CompareNodes.CompareMembers` | common/cJSON.c:3094-3130 | The two loops over objects together |
| `CompareNodes.GetObjectItem` | common/cJSON.c:1924-1954 | The first child with the name; the case-sensitive search gives up at a child without one |
| `CompareNodes.SameString` | common/cJSON.c:129-150 | strcmp or case_insensitive_strcmp is 0 exactly for equal strings, up to case in the second |
| `CompareNodes.OneNodeOneValue` | common/cJSON.c:3036-3040 | One node denotes one value, however its tree is described |
| `CompareNodes.CopyIsEqual` | common/cJSON.c:2732-2813 | A recursive duplicate denotes the same value, and compares equal exactly if the original is consistent with itself |
| `Minify.Minify` | common/cJSON.c:2864-2910 | The in-place loop computes a function of the text, and writes nothing behind the original NUL |
| `Minify.MinifyStep` | common/cJSON.c:2873-2905 | Each turn reads something, and the write position stays behind the read position |
| `Minify.CopyString` | common/cJSON.c:2842-2862 | A string is moved down unchanged up to its closing quote |
| `Minify.SkipOneline` | common/cJSON.c:2815-2826 | The comment is skipped with its newline, or to the end |
| `Minify.SkipMultiline` | common/cJSON.c:2828-2840 | The comment is skipped with its closing mark, or to the end |
| `MinifyText.MinifyIsIdempotent` | common/cJSON.c:2864-2910 | Minifying minified text changes nothing |
| `MinifyText.SafeTree` | common/cJSON.c:2864-2910 | The formatted print of a tree without strings that end in a backslash minifies to its unformatted print, in front of any text |
| `MinifyText.QuotedLeftOpen` | common/cJSON.c:2842-2862 | After a string that ends in a backslash, what follows is copied as if it were inside |
| `MinifyExact.MinifiedPrint` | common/cJSON.c:2864-2910 | Minifying the formatted print gives the unformatted one exactly if no string ends in a backslash, but for the last token with only closing brackets behind it |
| `Alarms.ChangeTells` | service/hwmon/hwmon_common.c:103-128 | Clearing the old level and raising the new one keeps: the alarm outstanding is the one the fault state names, none is raised twice or cleared unraised |
| `Alarms.EdgeMoments` | service/hwmon/hwmon_common.c:27-42 | The alarm goes up exactly at bad reading number repeat_max + 1 in a row and down at the first good one |
| `Alarms.EdgesTell` | service/hwmon/hwmon_common.c:27-42 | Over any readings the alarm is outstanding exactly while there are too many bad ones in a row, and messages alternate |
| `Alarms.HighestIsMaximum` | service/hwmon/hwmon_common.c:555-571 | The baseline of the link check is the maximum of the counts that any node has seen |
| `Alarms.CheckNode.CheckCpuTemp` | service/hwmon/hwmon_common.c:85-131 | After any samples, with thresholds that may change in between, the alarm outstanding is none, HIGH_TEMP or OVER_HEATING as the last usable sample demands |
| `Alarms.CheckNode.CheckBoardTemp` | service/hwmon/hwmon_common.c:136-183 | The same for the board |
| `Alarms.CheckNode.CheckCpuOccupy` | service/hwmon/hwmon_common.c:15-45 | The messages sent are those of the edges of its readings; a failed reading counts for nothing |
| `Alarms.CheckNode.CheckInputPower` | service/hwmon/hwmon_common.c:188-221 | The same for low input power |
| `Alarms.CheckNode.CheckCpriState` | service/hwmon/hwmon_common.c:552-582 | The messages are those of the edges of the node's own readings below the running maximum, which all nodes with this check share; other nodes keep their state |
| `Alarms.CheckNode.CheckRegister` | service/hwmon/hwmon_common.c:263-292 | The alarm follows the last reading that was no glitch; a second read that matches neither raises nor clears |
| `Alarms.CheckNode.SetParam` | service/hwmon/hwmon_main.c:159-164 | One parameter is set, and only one in range |
| `Scheduler.Preserved` | service/hwmon/hwmon_main.c:471-546 | Any step of the timer, the checker or a caller keeps the invariant that ties runs, expiries and the counter of the interval; tests and stores of a thread are steps of their own |
| `Scheduler.ExpiriesAreAccounted` | service/hwmon/hwmon_main.c:471-546 | In every interleaving each expiry of a node has been run, is still to be run, or was lost because it met the node READY |
| `Scheduler.RunsNeedExpiries` | service/hwmon/hwmon_main.c:515-546 | So check_times never exceeds the expiries of the interval |
| `Scheduler.RunsEqualExpiries` | service/hwmon/hwmon_main.c:515-546 | A node at rest has been run once for each expiry exactly if no expiry met it READY |
| `Scheduler.ExpiryBetweenRuns` | service/hwmon/hwmon_main.c:527-536 | A node never starts twice without an expiry in between |
| `Scheduler.ExpiriesArePaced` | service/hwmon/hwmon_main.c:471-482 | With a fixed interval n, t enabled ticks make exactly floor(t / (n + 1)) expiries, one that is just being stored included |
| `Scheduler.ExpiryBeforeRunIsLost` | service/hwmon/hwmon_main.c:471-536 | Two expiries before a run: one run, and nothing left to do |
| `Scheduler.ExpiryDuringRunIsLost` | service/hwmon/hwmon_main.c:527-536 | Two expiries, the second one during the run of the first: one run, and nothing left to do |
| `Scheduler.ListCheck` | service/hwmon/hwmon_main.c:471-482 | One timer visit to every node of the list |
| `Scheduler.CheckPass` | service/hwmon/hwmon_main.c:515-546 | An undisturbed pass runs every due node once and leaves it idle |
| `Scheduler.VisitedIsThreeSteps` | service/hwmon/hwmon_main.c:471-482 | An undisturbed timer visit is made of the steps that the interleavings have |
| `Scheduler.CheckedIsFourSteps` | service/hwmon/hwmon_main.c:527-536 | So is an undisturbed visit of the checker |
| `SysConf.SetSavedAndLoaded` | service/init/daemon_main.c:49-219 | After any run of sys_conf_set on any list, saving and loading gives each key the value it was set to last or had; a key that the list held more than once comes back with its last value instead |
| `SysConf.SavedComesBack` | service/init/daemon_main.c:83-219 | Saving and loading gives back the fixed fields and, as far as memory goes, the entries in reverse order; with all of them back every key keeps its value exactly if its first and last entries agree |
| `SysConf.RepeatedKeyChanges` | service/init/daemon_main.c:146-167 | A file that holds a key twice: the value read from it is another one after saving and loading |
| `SysConf.DistinctAgree` | service/init/daemon_main.c:49-81 | Distinct keys, which sys_conf_set keeps, meet that condition |
| `SysConf.DocumentParsesBack` | service/init/daemon_main.c:176-219 | The file that is written parses to the tree it was printed from |
| `SysConf.FixedComesBack` | service/init/daemon_main.c:118-138 | Every saved fixed field is loaded into itself, absent ones staying NULL |
| `SysConf.EntriesComeBackReversed` | service/init/daemon_main.c:146-167 | Loading puts each entry in front, so the order is reversed; where malloc fails the rest is missing |
| `SysConf.UpdatedLookup` | service/init/daemon_main.c:49-81 | Setting a key changes its value and no other |
| `SysConf.UpdatedDistinct` | service/init/daemon_main.c:49-81 | Setting keeps the keys distinct |
| `SysConf.ReversedLookup` | service/init/daemon_main.c:18-36 | A lookup in the reversed list finds the last entry of the key |
| `SysConf.UpdatedRepeats` | service/init/daemon_main.c:49-81 | Setting a key that is there more than once leaves its last entry, and never makes a key repeated |
| `SysConf.LookupIsLastSet` | service/init/daemon_main.c:49-81 | After any run of sys_conf_set a lookup gives the last value set, or what it gave before |
| `ConfScript.SysConfParam.Get` | service/init/daemon_main.c:18-36 | The value of the first node with the key, or NULL |
| `ConfScript.SysConfParam.Set` | service/init/daemon_main.c:49-81 | The value is overwritten in place or a node is put in front; a NULL argument or a refused node changes nothing |
| `ConfScript.SysConfParam.BuildDocument` | service/init/daemon_main.c:184-207 | The tree made of the fields and of the walk over the list is the document, where no memory is refused; all of it is new and live, so that it can be printed and released |
| `ConfScript.SysConfParam.StoreScript` | service/init/daemon_main.c:176-219 | Where no memory is refused, the text for the file is the formatted print of the configuration unless that is too long, and nothing but the text stays allocated |
| `ConfScript.SysConfParam.LoadScript` | service/init/daemon_main.c:83-174 | The configuration becomes what the text says, and stays when the file is missing or too short |
| `FruImage.StoredIsReadable` | service/devm/devm_fru.c:954-976 | If the header places areas inside the chip without overlap, each placed one has a format version and none is stored over the header, then storing all and reading succeeds and gives back the stored bytes |
| `FruImage.LastStoreWins` | service/devm/devm_fru.c:123-152 | Whatever places the header names, overlapping or outside the chip: each byte is left by the last store that covers it, or as it was |
| `FruImage.StoredIsReadExactly` | service/devm/devm_fru.c:954-976 | Header and placed areas are read back as they were to be stored exactly if the header stays and each placed area, with what unplaced ones put over it before or after its own store, holds the right bytes |
| `FruImage.ProductIsLeft` | service/devm/devm_fru.c:954-976 | What the stores leave in the product area, to the byte |
| `FruImage.BoardIsLeft` | service/devm/devm_fru.c:954-976 | The same for the board area |
| `FruImage.ChassisIsLeft` | service/devm/devm_fru.c:954-976 | The same for the chassis area |
| `FruImage.StoredIsReadPlainly` | service/devm/devm_fru.c:954-976 | Unless an area stored over the header happens to start with its bytes, that is so exactly if the header was written or there, no area is stored over it, and each placed one has a format version or was there before |
| `FruImage.HeaderSurvives` | service/devm/devm_fru.c:954-976 | The header is there after all stores exactly if the last unplaced area stored over it starts with the same bytes, or there is none and the header was written or there before |
| `FruImage.UnplacedAreaOverwritesHeader` | service/devm/devm_fru.c:960-964 | An image whose header is lost that way |
| `FruImage.StoredApart` | service/devm/devm_fru.c:123-152 | Storing one placed area leaves the header and the other areas as they were |
| `FruImage.StoredStaysReadable` | service/devm/devm_fru.c:123-232 | Storing a checked area in a readable image leaves it readable |
| `FruImage.ByteChangeIsNoticed` | service/devm/devm_fru.c:165-232 | Changing any single byte of an area that is there makes the read of a readable image fail, overlapping areas included |
| `FruImage.OneByteIsNoticed` | service/devm/devm_fru.c:154-163 | The checksum notices any change of one byte, its own included |
| `FruImage.Checksum` | service/devm/devm_fru.c:154-163 | The sum of the bytes in eight bits |
| `Fru.RunKeepsReadable` | service/devm/devm_fru.c:363-512 | After any run of storing setters that stay off the header the image is readable and the records in memory are those in the chip |
| `Fru.RunChangesItsFields` | service/devm/devm_fru.c:363-512 | A byte that no setter of the run names, and that is no checksum of its areas, is as it was |
| `Fru.SetterKeepsReadable` | service/devm/devm_fru.c:363-512 | The same for one setter |
| `Fru.SetterChangesItsField` | service/devm/devm_fru.c:363-512 | The same for one setter |
| `Fru.RunIsReadBack` | service/devm/devm_fru.c:363-528 | After any such run each field holds the value of the last setter that named it, as a reader of the record or of the stored area finds it |
| `Fru.HeaderAfterSetter` | service/devm/devm_fru.c:363-512 | A setter leaves the header in place exactly if its area is placed, does not fit, or starts with the same eight bytes |
| `Fru.SetterOverwritesHeader` | service/devm/devm_fru.c:363-384 | A chip whose header is lost by setting the MAC address |
| `Fru.FruChip.ReadByte` | driver/misc/drv_i2c.c:408-445 | One byte at its linear address: the page is in the device address |
| `Fru.FruChip.WriteByte` | driver/misc/drv_i2c.c:489-540 | One byte at its linear address is written and no other |
| `Fru.FruChip.LoadArea` | service/devm/devm_fru.c:99-121 | The bytes of an area, unless it reaches beyond the chip |
| `Fru.FruChip.StoreArea` | service/devm/devm_fru.c:123-152 | The bytes of an area are stored, unless it reaches beyond the chip |
| `Fru.FruChip.ReadFruInfo` | service/devm/devm_fru.c:165-232 | Succeeds exactly for a readable image, and then the records are its areas |
| `Fru.FruChip.StoreAll` | service/devm/devm_fru.c:954-976 | The image becomes that of the four conditional stores |
| `Fru.FruChip.SetMacAddress` | service/devm/devm_fru.c:363-384 | The record gets the address and its checksum, and is stored if asked to and possible |
| `Fru.FruChip.SetUuidBytes` | service/devm/devm_fru.c:386-407 | The same for the UUID |
| `Fru.FruChip.SetSkuidByte` | service/devm/devm_fru.c:424-445 | The same for the SKU |
| `Fru.FruChip.SetSerialNumber` | service/devm/devm_fru.c:464-484 | The same for the serial number, whose checksum is computed only when storing |
| `Fru.FruChip.SetRfCalByte` | service/devm/devm_fru.c:486-512 | The same for a calibration byte; an offset over 60 changes nothing |
| `HexText.ParseHexString` | service/devm/devm_fru.c:73-97 | Each two digits make a byte, other characters being skipped; it fails exactly when there are too few, and writes no byte more |
| `HexText.UuidDigits` | service/devm/devm_fru.c:516-528 | A printed UUID, parsed again, has the digits of its bytes |
| `Cli.RegisteredIsSortedAndStable` | common/tiny_cli.c:293-336 | After any registrations the list is sorted and commands of one name are in the order of their registration |
| `Cli.RegisteredMembers` | common/tiny_cli.c:293-336 | The list holds exactly the commands registered |
| `Cli.ExactNameIsExecuted` | common/tiny_cli.c:198-273 | In a sorted list an exact name is executed, even where it begins others, exactly if no smaller name matches it; of several commands with the name the first one is |
| `Cli.LowerCaseNameIsExecuted` | common/tiny_cli.c:198-273 | Where names have no capitals that is always so, however the key is written |
| `Cli.KeyIsResolved` | common/tiny_cli.c:198-273 | In any list: a key that is the whole first match, or matches only one command, executes the first match; else it is ambiguous, or unknown without a match |
| `Cli.PrefixIsLeast` | common/tiny_cli.c:314-327 | No longer name sorts before its own prefix, on which the dispatch relies |
| `Cli.CapitalsHideAName` | common/tiny_cli.c:198-273 | A name that is not executed because of another one's capital |
| `Cli.OneSortedList` | common/tiny_cli.c:293-336 | Distinct names have one sorted list |
| `Cli.OrderOfRegistrationIsFree` | common/tiny_cli.c:198-336 | For distinct names neither the list nor any dispatch depends on the order of registration |
| `Cli.CmdList.Register` | common/tiny_cli.c:293-336 | The linked list gets the command before the first greater name, or stays when malloc gives no node |
| `Cli.CmdList.Lookup` | common/tiny_cli.c:198-273 | The walk over the list gives the dispatch that the properties are about |
| `CliParam.ParamFormat` | common/tiny_cli.c:98-145 | The words of the line, at most the count asked for, become C strings in place, in order |
| `CliParam.CutLast` | common/tiny_cli.c:130-142 | The word under way when the count is reached is ended too |

## Left out

- Printer.PrintBuffer.PrintNumber: only integers of at most 15 digits, which print as plain decimals; general doubles, `%1.17g`, NaN, infinity and the locale's decimal point are not modelled.
- Printer.PrintBuffer.PrintValue: trees whose numbers are such integers; so in PrintArray, PrintElements, PrintObject, PrintMembers and the print calls.
- PrintApi.Print: the branch for hooks without a realloc, as in Ensure; the numbers as in PrintValue.
- PrintApi.PrintBuffered: the numbers as in PrintValue.
- PrintApi.PrintPreallocated: the numbers as in PrintValue; the buffer is not one of the tree's own strings.
- Printer.PrintBuffer.Ensure: the hooks always have a realloc, since nothing in the repository calls cJSON_InitHooks; the branch that copies by hand is not modelled.
- Numbers.ReadNumber: numbers are reals, so `strtod` does not round or overflow; `strtod`, `strtoul` and `sprintf` are functions, not code.
- Numbers.CopyHexNumber: the extension consumes characters that `strtoul` did not use and may not advance; no claim is made that every successful parse advances.
- Reparse.PrintedTextParsesBack: trees without raw or invalid nodes, which do not print as JSON, and with integers of at most 15 digits; the `valueint` that parsing sets for `true` is not part of a tree's value.
- Reparse.AcceptedTextReprints: texts whose numbers are integers of at most 15 digits.
- Reparse.ValueReadsBack: trees as in PrintedTextParsesBack; so in ArrayReadsBack, ObjectReadsBack and TextTellsNormalForm.
- Reprint.PrintAndParse: trees as in PrintedTextParsesBack.
- Parser.ParseWithLengthOpts: buffers whose last byte is NUL, as cJSON_Parse passes them; cJSON_ParseWithLength on text without one, and NULL arguments, are not modelled.
- Parser.ParseRoot: the same buffers.
- Siblings.AddItemToArray: the item is not in the list already, and is in no other one; the code does not check this.
- Siblings.InsertItemInArray: the item is not in the list already and not the array itself; the code does not check this.
- Building.AddItemToObject: items without children and without a name, as daemon_store_script adds them; constant keys.
- Compare.CloseIsEqual: over reals, without rounding in the product of the larger number and DBL_EPSILON.
- CompareNodes.Compare: for trees that share nodes and have repeated names only one direction is stated, since the shortcut may answer for a node that differs from itself.
- Nodes: the type field is a kind and two flags; unknown type bits are the kind Invalid.
- cJSON_InitHooks, the other Create, Add and Is wrappers, object variants of detach and replace, reference constructors and array constructors: compositions of modelled operations; the array constructors with count 0 read a missing child.
- Alarms.CheckNode.CheckCpuOccupy: `fault_cnt` is unbounded, so the wrap after 2^31 bad readings is not modelled; the same for CheckInputPower and CheckCpriState.
- Alarms.CheckNode.SetParam: the node is given, not looked up, and the strings are already numbers.
- Alarms: check_mem_occupy, fan_speed_check and the PLL and register checks of the clock chips and transceivers, which have the shape of the checks modelled; sensor drivers are arbitrary inputs.
- Scheduler: sleeping, and the switch that pauses both threads, which only leaves out steps; nodes are found by index, not by name, and are all registered before the run.
- ConfScript.SysConfParam.StoreScript: the file write and its result; where memory is refused the code leaves out members, loses a node that could not be named, or frees an uninitialised pointer, and nothing is promised of the text.
- ConfScript.SysConfParam.LoadScript: the parsed tree and its strings are values, parsing is not refused memory, strdup always succeeds, and a missing name or a fixed field that is no string (on which the code calls strcmp or strdup with NULL) is skipped or gives a None.
- ConfScript.SysConfParam.Set: strdup always succeeds.
- SysConf: the driver script, the semaphore and the start-up of the daemon.
- FruImage.StoredIsReadable: sufficient conditions; the converse is FruImage.StoredIsReadExactly.
- Fru.RunChangesItsFields: setters that stay off the header; what the others do to it is Fru.HeaderAfterSetter.
- Fru.FruChip.ReadByte: a failing bus is not modelled, so a read always gives a byte; transfers of several bytes and their page split are not used by this code.
- Fru.FruChip.WriteByte: a failing bus, as in ReadByte.
- Fru.FruChip.LoadArea: a failing bus and an unknown chip number.
- Fru.FruChip.StoreArea: a failing bus and an unknown chip number.
- Fru.FruChip.ReadFruInfo: a failing bus and a chip number out of range.
- Fru.FruChip.SetSerialNumber: at most 20 bytes, as its callers check; the code itself does not.
- Fru.FruChip: one chip at a time; which of the chips a call addresses is its argument or a constant.
- Fru.FruChip.StoreAll: the parsing of the JSON description before it.
- Cli.CmdList.Register: strdup always succeeds.
- Cli.CmdList.Lookup: running the command found, passwords, shell escapes and the telnet session; names and keys fold ASCII case only.
- CliParam.ParamFormat: `argv` holds offsets, not pointers; quoting is not known to the code either.
- The second cycle of `cli_tdd_format`, phase compensation, the message sockets, the kernel module and the board drivers.
