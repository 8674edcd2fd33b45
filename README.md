# selenium-sfdc in Dafny

A verified model of the sequential logic inside `selenium-sfdc.js`, a Selenium IDE
extension that adds Salesforce-specific Selenese commands. The model covers these parts:

- **Command management** (`sfdc.util.insertCommand`, `sfdc.util.removeCommands`).
  - `insertCommand` patches the running test case's list of command rows. It renumbers every row numbered after the current one, in place. It splices a new row in just after the debugger's cursor. It appends a trailing `removeCommands` cleanup row unless the list already ends in one. Finally it hands the new list to the host.
  - `removeCommands` gives the host back the saved list and moves the cursor.
  - The host's `Command` rows and `testCase` are classes. `index` is a mutable field, because the loop renumbers the shared row objects. `setCommands` replaces the list whole. The module's saved list is a field of `CommandManager`.
  - `CommandRows.Insert` states the value-level meaning of one insertion. `CommandManagement.PatchCommands` and the two insert methods of `CommandManagement.CommandManager` are proved against it.
- **Stack traces** (`Logger.genStackTrace`, `Logger.descCaller`).
  - `genStackTrace` keeps the lines of the stack text that look like a function call, and drops the first one when no error was passed.
  - `descCaller` describes the caller from the third such line.
  - `StackTrace.StackTraceOf` is the value the code computes, `StackTrace.GenStackTrace` the loop, and `StackTrace.DescCaller` the description.
  - The anchored pattern `^\s*[A-Za-z0-9\-_\$]+\(` is a predicate on a line. It is proved equal to a one-pass scan.
- **Layout fields**, the part of `getSObjectLayoutFields` after its two queries. The layout's item fields are flattened section by section and column by column. Then the object's field records whose developer name is among them are kept. `LayoutFields.LayoutFieldRecordsAsWritten` models the code; `LayoutFields.LayoutFieldRecords` reads the property the query selects; `LayoutFields.FlattenLayoutFields` is the flattening loop.
- **`urlFor`.** A file path used by a test is resolved against the test case file's directory. `http` paths pass through, and so do `file://` paths in any letter case. `FileUrls.UrlForAsWritten` replaces the first backslash only, as standard ECMAScript does; `FileUrls.UrlFor` replaces every one.
- **Salesforce ids** (`isValidId`, `getIdFromLocation`). They use the unanchored pattern `[a-zA-Z0-9]{15}|[a-zA-Z0-9]{18}`. It is tested against a string (`RecordIds.IsValidId`), or executed to extract the leftmost match (`RecordIds.GetIdFromLocationAsWritten`, with `RecordIds.GetIdFromLocation` the version that throws its own error).
- **Page URLs** (`doSfdcOpenPage`, `doSfdcOpenRecordById`). This is the address the browser is sent to for a page name or a record id: `PageUrls.OpenPageUrlAsWritten`, `PageUrls.OpenPageUrl` with the unsupported-page error reachable, and `PageUrls.OpenRecordByIdUrl`.
- **`encodeParams`** (`QueryParams.EncodeParams`). It is proved to decode back to the parameters with a non-empty key.

JavaScript's thrown errors are modelled as values. The pure functions return a `Result`: `Throw(TypeError)` or `Throw(Error(message))`. The command methods return an `Outcome`: `Done`, or `Fail(TypeError)` or `Fail(ReferenceError)`. A property that is `undefined` is modelled as `None`.

`removeCommands` is meant to put back the list as it was before the first insertion. The saved list, however, holds the same row objects that `insertCommand` renumbers in place, so the rows the host gets back keep their new numbers. `CommandManager.InsertCommand` states this: the saved rows are the renumbered originals. `CommandManager.RemoveCommands` hands exactly those rows back. `CommandRows.InsertScenario` works one case through.

## Model

| member | source | states |
|---|---|---|
| CommandRows.InsertLength | selenium-sfdc.js:923-950 | after an insertion the list is one row longer if it already ended in a `removeCommands` row, and two rows longer otherwise |
| CommandRows.InsertPlacement | selenium-sfdc.js:924-944 | rows up to the cursor keep their place; the new row comes next with the given command, target and value, numbered one past the current row; the original rows keep their relative order; each original row moves up by one exactly when its number is greater than the current row's |
| CommandRows.BumpIndex | selenium-sfdc.js:933-939 | renumbering adds one exactly to numbers greater than the current row's, and changes nothing else about a row |
| CommandRows.InsertTail | selenium-sfdc.js:926-950 | an appended cleanup row is last, has no target or value, and is numbered one past the original last row as already renumbered; otherwise the list ends in the renumbered last row, or in the new row when the cursor is on the last row |
| CommandRows.InsertCleanupCount | selenium-sfdc.js:933-950 | the number of cleanup rows grows by one for the appended cleanup row, plus one if the inserted command is itself `removeCommands` |
| CommandRows.InsertPatches | selenium-sfdc.js:946-950 | inserting a command other than `removeCommands` into an unpatched list, or into a patched one before its cleanup row, leaves a list that ends in its only cleanup row: repeated inserts never pile up two cleanup rows |
| CommandRows.InsertDense | selenium-sfdc.js:942-950 | with rows numbered by position, the result is numbered by position if and only if the cursor is not on a last row that is not a cleanup row |
| CommandRows.InsertCollisionExample | selenium-sfdc.js:942-950 | one `open` row with the cursor on it: the new row and the cleanup row are both numbered 1 |
| CommandRows.InsertIntendedDense | selenium-sfdc.js:946-950 | numbering the cleanup row after the last spliced row keeps a dense numbering dense on all inputs |
| CommandRows.InsertIntendedAgrees | selenium-sfdc.js:946-950 | the intended numbering changes only the cleanup row's number: same length, same rows before it, same last command |
| CommandRows.InsertScenario | selenium-sfdc.js:917-950 | `pause` inserted after the second of three rows lands third; the last row becomes 3 and the cleanup row 4; the three original rows now read 0, 1, 3 |
| CommandManagement.Command.constructor | selenium-sfdc.js:942 | `new Command(command, target, value)` carries its command, target and value |
| CommandManagement.TestCase.SetCommands | selenium-sfdc.js:952 | the host's list is replaced by the given one, and the cursor is untouched |
| CommandManagement.PatchCommands | selenium-sfdc.js:923-952 | a cursor outside the list throws a `TypeError` and changes nothing; otherwise the host's rows become the insertion of the old rows, the old row objects carry the renumbered rows, the objects before and after the new row are the old ones in order, and the new and cleanup rows are new objects |
| CommandManagement.PatchList | selenium-sfdc.js:923-950 | the built list's rows are the insertion of the old rows, the old objects are renumbered in place, the old objects keep their positions around the new row, and the new rows are fresh |
| CommandManagement.RenumberAndSplice | selenium-sfdc.js:933-944 | the old objects carry the renumbered rows, and the built list is those objects with one fresh row spliced in after the cursor |
| CommandManagement.RenumberRows | selenium-sfdc.js:933-939 | the loop collects the same objects in the same order and renumbers each row numbered after the current row |
| CommandManagement.SpliceCommand | selenium-sfdc.js:942-944 | `splice(k, 0, c)` puts one fresh object at position `k` and shifts the rest by one |
| CommandManagement.PushCommand | selenium-sfdc.js:946-949 | `push` appends one fresh cleanup object and keeps the objects before it |
| CommandManagement.CommandManager.InsertCommandAsWritten | selenium-sfdc.js:917-954 | the `.size` guard never passes, so the saved list is never set and only the patch happens: a cursor outside the list throws a `TypeError` and changes nothing; otherwise the host gets the insertion of the old rows, the old objects are renumbered in place and keep their positions around the new row, and the new rows are fresh |
| CommandManagement.CommandManager.InsertCommand | selenium-sfdc.js:917-954 | the host's list is saved when nothing is saved yet, and a held snapshot is kept; then the patch happens with the same outcomes as `PatchCommands`: a `TypeError` with nothing changed for a cursor outside the list, otherwise the insertion of the old rows with the old objects renumbered in place, so a freshly saved list's rows are the renumbered originals |
| CommandManagement.CommandManager.RemoveCommandsAsWritten | selenium-sfdc.js:956-961 | reading the undeclared `testCaseOriginalCommands` throws a `ReferenceError`, in any mode, before anything changes |
| CommandManagement.CommandManager.RemoveCommands | selenium-sfdc.js:956-961 | the cursor moves to the saved list's last position, the host gets the saved objects and their rows back, and the saved list is emptied |
| StackTrace.CallLineMatches | selenium-sfdc.js:66-69 | the one-pass scan accepts exactly the lines the call pattern matches: white space, at least one name character, then `(` |
| StackTrace.GenStackTrace | selenium-sfdc.js:60-78 | the method returns the fixed message when there is no stack, and otherwise the stack's call lines in order, without the first one when no error was passed |
| StackTrace.PushCallLines | selenium-sfdc.js:66-72 | the loop pushes exactly the call lines, in order |
| StackTrace.NoStackMessage | selenium-sfdc.js:63-64 | with no stack text the result is the single fixed message |
| StackTrace.StackTraceEntries | selenium-sfdc.js:66-72 | every entry is a line of the stack that matches the call pattern |
| StackTrace.StackTraceComplete | selenium-sfdc.js:66-76 | with an error given, every matching line is an entry; without one, the first entry is dropped, and nothing is dropped from an empty list |
| StackTrace.SingleCallLine | selenium-sfdc.js:60-78 | a one-line stack that is a call line gives that line with an error given, and nothing without one |
| StackTrace.DescCaller | selenium-sfdc.js:92-100 | an empty trace, one entry and two entries each give their own message, exactly; three or more give `caller: ` and the third entry |
| StackTrace.DescCallerNoStack | selenium-sfdc.js:92-100 | without a stack the fixed message counts as the describing call, so the caller is reported missing |
| Seqs.Split | selenium-sfdc.js:67 | `split` on one character gives at least one part, and no part contains the separator |
| Seqs.JoinSplit | selenium-sfdc.js:67 | joining the parts of a split gives back the string |
| Seqs.SplitJoin | selenium-sfdc.js:1022 | splitting a join of separator-free parts gives back the parts |
| Seqs.FilterMembers | selenium-sfdc.js:391-395 | every element a filter keeps is in the list and passes the test |
| Seqs.FilterKeeps | selenium-sfdc.js:391-395 | every element of the list that passes the test is kept |
| LayoutFields.FlattenLayoutFields | selenium-sfdc.js:379-388 | the three nested loops push the layout's field names section by section |
| LayoutFields.PushColumnFields | selenium-sfdc.js:381-387 | the column loop appends each column's field names in order |
| LayoutFields.PushItemFields | selenium-sfdc.js:382-386 | the item loop appends each present, non-empty field in order |
| LayoutFields.SectionFieldsMembers | selenium-sfdc.js:379-388 | a name is in the flattened list if and only if it is non-empty and some item of some column of some section carries it |
| LayoutFields.KeepOnLayoutMembers | selenium-sfdc.js:391-395 | a record is kept if and only if it is one of the object's records and its property names a field in the list |
| LayoutFields.LayoutFieldRecordsMembers | selenium-sfdc.js:379-395 | with the selected property `DeveloperName`, a record is kept if and only if its developer name is the field of some layout item |
| LayoutFields.AsWrittenKeepsNothing | selenium-sfdc.js:359-395 | when no record has a `developerName` property, whatever other properties it carries, the filter as written keeps nothing; the query selects only `DeveloperName` |
| LayoutFields.DeveloperNameExample | selenium-sfdc.js:379-395 | a layout with the field `Region` keeps its record with `DeveloperName`, and drops it with `developerName` |
| FileUrls.IndexOfFrom | selenium-sfdc.js:785 | the first occurrence at or after `from`, or -1 exactly when there is none |
| FileUrls.LastIndexOfBelow | selenium-sfdc.js:786 | the last occurrence, or -1 exactly when there is none |
| FileUrls.ReplaceBackslashes | selenium-sfdc.js:785 | every backslash becomes a slash, every other character stays, and no backslash is left |
| FileUrls.Dir | selenium-sfdc.js:786-787 | the part before the last slash, which has no slash after it, or the empty string when there is no slash |
| FileUrls.UrlForCases | selenium-sfdc.js:778-790 | for any backslash replacement, so for the code as written and for the corrected version alike: `http` paths and paths whose first seven characters lowercase to `file://` come back unchanged; anything else becomes `file://`, the directory of the normalised test case file and `/` before the path, or a `TypeError` without a file |
| FileUrls.UrlForIdempotent | selenium-sfdc.js:778-790 | for any backslash replacement, resolving an already resolved URL changes nothing |
| FileUrls.UrlForRelative | selenium-sfdc.js:784-788 | a relative path lands under a prefix of the normalised file path that contains no backslash |
| FileUrls.BackslashExample | selenium-sfdc.js:785 | `d.csv` beside `C:\a\t.html` resolves to `file://C:/d.csv` as written |
| FileUrls.BackslashesReplaced | selenium-sfdc.js:785 | with every backslash replaced the same path resolves to `file://C:/a/d.csv` |
| QueryParams.EntrySplit | selenium-sfdc.js:1022 | an entry splits on `=` into the encoded key and the encoded value |
| QueryParams.EncodeParamsSplit | selenium-sfdc.js:1016-1024 | the query is empty if and only if no key is kept, and otherwise splits on `&` into exactly the entries |
| QueryParams.EncodeDecode | selenium-sfdc.js:1016-1024 | decoding the query gives back the parameters with a non-empty key, in order |
| RecordIds.FindRun | selenium-sfdc.js:981 | the leftmost position of fifteen alphanumerics at or after `from`, or none exactly when there is none |
| RecordIds.Exec | selenium-sfdc.js:445-446 | a match is fifteen alphanumeric characters |
| RecordIds.ExecLeftmost | selenium-sfdc.js:444-446 | `exec` matches if and only if the pattern occurs, and returns the text at the leftmost position where it occurs |
| RecordIds.IsValidIdIff | selenium-sfdc.js:979-986 | `isValidId` returns true if and only if the pattern occurs, and otherwise throws the invalid-id error; it never returns false |
| RecordIds.IsValidIdUnanchored | selenium-sfdc.js:981 | text around a valid id keeps it valid |
| RecordIds.GetIdFromLocationCases | selenium-sfdc.js:442-451 | both versions return the leftmost match when there is one; without one, the written one throws a `TypeError` and the corrected one its own error |
| RecordIds.NoIdExample | selenium-sfdc.js:446-447 | `/home/home.jsp` makes the written lookup throw a `TypeError` |
| RecordIds.LongIdExample | selenium-sfdc.js:444-448 | an eighteen-character id gives only its first fifteen characters |
| PageUrls.OpenRecordByIdCases | selenium-sfdc.js:531-549 | a valid id opens instance, `/` and the id, with `?noredirect=1` exactly when it starts with `005`; an invalid id throws the id error |
| PageUrls.NotSupportedUnreachable | selenium-sfdc.js:515-520 | as written, no parameter produces the page-not-supported error |
| PageUrls.OpenPageUrlAgrees | selenium-sfdc.js:503-525 | the corrected version succeeds exactly where the written one does, with the same URL; where they fail, they differ only in the error message |
| PageUrls.OpenPageUrlCases | selenium-sfdc.js:503-525 | `Login`, `Home` and `Setup` open their fixed pages; a valid id opens its record; anything else throws the page-not-supported error |

## Findings

| source | as written | input that shows it | evidently intended | confidence | as-written member | corrected member |
|---|---|---|---|---|---|---|
| selenium-sfdc.js:920 | `testCaseOriginalCommands.size > 0` reads a property arrays do not have, so the test is always false | any call of `insertCommand` | save the host's list when nothing is saved yet | high, not executed | CommandManagement.CommandManager.InsertCommandAsWritten | CommandManagement.CommandManager.InsertCommand |
| selenium-sfdc.js:957-959 | the bare identifier `testCaseOriginalCommands` is undeclared, so its read throws a `ReferenceError` whatever the mode (the write at 959 would also throw under the file's `'use strict'`) | any call of `removeCommands` | read and reset the module's `$$.testCaseOriginalCommands` | high, not executed | CommandManagement.CommandManager.RemoveCommandsAsWritten | CommandManagement.CommandManager.RemoveCommands |
| selenium-sfdc.js:947 | the cleanup row is numbered after the original last row, which collides with the new row when the cursor is on the last row | one `open` row numbered 0, cursor 0: the new row and the cleanup row are both numbered 1 | number the cleanup row after the last row of the spliced list | medium, not executed | CommandRows.InsertCollisionExample | CommandRows.InsertIntendedDense |
| selenium-sfdc.js:785 | `replace("\\", "/", "g")`: a string pattern, with the flags argument ignored by standard ECMAScript, replaces only the first backslash | test case file `C:\a\t.html`, path `d.csv` gives `file://C:/d.csv` | replace every backslash | low (older Firefox honoured the flags argument), not executed | FileUrls.BackslashExample | FileUrls.BackslashesReplaced |
| selenium-sfdc.js:446-450 | `exec` returns `null` when nothing matches, and reading `arr.length` throws a `TypeError` before the intended error | pathname `/home/home.jsp` | throw "Id could not be extracted from window.location" | high, not executed | RecordIds.NoIdExample | RecordIds.GetIdFromLocationCases |
| selenium-sfdc.js:515-520 | `isValidId` throws instead of returning false, so the "Page is not supported" branch is unreachable and an unknown page name reports an invalid id | parameter `Contacts` | report the unsupported page | high, not executed | PageUrls.NotSupportedUnreachable | PageUrls.OpenPageUrlCases |
| selenium-sfdc.js:391-394 | the filter reads `record.developerName`, while the query selects `DeveloperName` | a layout with field `Region` and a record with `DeveloperName` `Region` gives no records | compare `record.DeveloperName` | medium, not executed | LayoutFields.AsWrittenKeepsNothing | LayoutFields.LayoutFieldRecordsMembers |

## Left out

- The `sfdc.api` layer (login, queries, describe, test runs, callouts), file loading (`FileReader`, `doAjaxRequest`, the XML, JSON and XLSX loaders), and the browser-driving `do*` and `assert*` commands beyond their choice of URL. All of these are network, DOM or browser I/O.
- `getTimestamp`: it reads the wall clock.
- Logging (`logit`, `logStackTrace`, `printObject` and the `LOG` calls inside the modelled functions): these are output-only side effects.
- Regular expressions in general. Only the three patterns the core uses are modelled, each as a predicate on characters.
- The stack text of an error, the org's `instance_url`, the test case file's path and the two query results are taken as inputs. The browser and the server produce them.
- `encodeURIComponent` and its decoder are function parameters. `EncodeDecode` assumes only that the encoder escapes `&` and `=` and that the decoder inverts it. Property values are strings, and `Object.keys` order is the order of the given pairs.
- FileUrls.Lower: lowercasing is ASCII only and keeps the length. Under full Unicode lowercasing, a non-ASCII character maps either to one character that does not occur in `file://`, or to more than one character, as U+0130 `İ` maps to `i` and U+0307. The only single non-ASCII character that lowercases into ASCII is the Kelvin sign, which gives `k`. The prefix is cut to seven characters before lowercasing. So a prefix holding a character of the second kind lowercases to more than seven characters, and none of these prefixes can equal `file://`. The comparison therefore agrees with Unicode lowercasing.
- CommandManagement.Command.constructor: the host's own initial `index` is not modelled; it is left at 0, because the patcher always overwrites it.
- CommandManagement.TestCase.SetCommands: this is plain replacement of the list. The host's refresh of its editor view is not modelled.
- CommandManagement.PatchCommands: host lists are assumed never to hold one row object twice (`TestCase.Valid`); such a row would be renumbered twice.
- CommandManagement.PatchCommands: a cursor outside the list, including any cursor on an empty list, makes `currentRow` `undefined`. The first read of `currentRow.index` then throws a `TypeError`, and it comes before any row is renumbered. The model therefore fails with `TypeError` and changes nothing.
- The saved list would need a copy of the rows to truly restore the original numbering. The model keeps the source's aliasing instead of inventing a copy (see `CommandManager.InsertCommand`).
