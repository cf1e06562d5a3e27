# A verified model of GanttProject's core helpers, table models and scheduler

This project is a Dafny model of a slice of GanttProject, a desktop project-scheduling
application. It covers fifteen source files:

- **ISO 8601 dates.** `DateParser` reads dates from the tokens of a `StringTokenizer` and
  writes them back with `getIsoDate`, `getIsoDateNoMillis` and `getIsoDateNoHours`.
- **Document paths.** `DocumentUri` is the path type of the storage layer. The `.gan`
  extension helper sits beside it.
- **Task columns.** The built-in task table columns each have a stub, a value class, a
  name key and an editability rule. There is also the lookup by id and the outline-number
  comparator.
- **UI helpers.** These are the mnemonic placeholder remover, the error message built
  from an exception's cause chain, the exception report, and the alert kind chosen from
  a message type.
- **Wizards and file checks.** The wizard model keeps pages, a current page and button
  state. The import wizard adds its own rules. The file checks run on the import and
  export file pages.
- **Observable properties.** Values that notify their watchers, with a writable flag,
  and a date property with a validator.
- **Menus.** Three menu builders (JavaFX, Swing and "as list") run the same builder
  program. There is also the menu bar builder and the Swing-to-JavaFX menu conversion.
- **Resource assignment tables.** One table is in the task properties dialog. The other
  is the JavaFX table in the resource properties dialog.
- **Task loading.** `TaskSerializer` turns the XML form of a task into a task and its
  dependency records. It then builds the dependency graph and the timeline of the Gantt
  view.
- **The scheduler.** `SchedulerImpl` walks the dependency graph layer by layer. For each
  task it combines the date ranges that its incoming dependencies impose, then moves the
  task's start and end.

Each Kotlin or Java file is one Dafny module. Shared pieces live in their own modules:

- `Wrappers` holds `Option` and `Result`.
- `JavaText` holds what the source borrows from the JDK: `Integer.parseInt`,
  `String.valueOf`, `trim`, `lowercase`, `split` and 32-bit wrap-around.
- `AssignmentTable` holds what both assignment tables share.

Objects whose fields the source updates in place are Dafny classes, and their methods
state the new state. Pure computations are functions, with lemmas relating them.

Data and operations are modelled as follows:

- Java `int` arithmetic is wrapped explicitly where it can overflow: the month decrement,
  negating a time zone and the comparator's subtraction.
- Bit flags are `bv32`.
- Dates inside the scheduler are integers (day numbers).
- Each listener or UI callback is a recorded event or a parameter.
- A value the model cannot compute is an opaque function parameter. These are the
  constraint parser, the holiday calendar, the cell editor's number parser and the
  refusal of a dependency.

## Model

| member | source | states |
|---|---|---|
| JavaText.Wrap32 | biz.ganttproject.core/src/main/java/org/w3c/util/DateParser.java:57 | Java `int` wrap-around: the result is a 32-bit value, congruent to the input modulo 2^32, and equal to it when it already fits |
| JavaText.Neg32 | biz.ganttproject.core/src/main/java/org/w3c/util/DateParser.java:153-154 | `-x` on an `int`: the negation, except that `Integer.MIN_VALUE` stays itself |
| JavaText.Dec32 | biz.ganttproject.core/src/main/java/org/w3c/util/DateParser.java:57 | `x - 1` on an `int`: the predecessor, except that `Integer.MIN_VALUE` wraps to the maximum |
| JavaText.Neg32Dec32Wrap | biz.ganttproject.core/src/main/java/org/w3c/util/DateParser.java:57 | the negation and the decrement are exactly the 32-bit wrap of the mathematical results |
| JavaText.ReadDigitsValue | biz.ganttproject.core/src/main/java/org/w3c/util/DateParser.java:50 | reading a digit string succeeds exactly when every character is an ASCII digit, with the decimal value |
| JavaText.ParseInt | biz.ganttproject.core/src/main/java/org/w3c/util/DateParser.java:50 | `Integer.parseInt` succeeds only on non-empty text and only with a value in the `int` range |
| JavaText.ParseIntDigits | biz.ganttproject.core/src/main/java/org/w3c/util/DateParser.java:50 | an unsigned digit string parses to its decimal value exactly when that value fits in an `int`, otherwise it is refused |
| JavaText.ParseIntSigned | biz.ganttproject.core/src/main/java/org/w3c/util/DateParser.java:50 | a leading '-' or '+' before digits gives the negated or plain value, refused outside the `int` range |
| JavaText.ParseIntNoDigits | biz.ganttproject.core/src/main/java/org/w3c/util/DateParser.java:157-160 | text without digits never parses (the NumberFormatException path) |
| JavaText.NatToStringDigits | biz.ganttproject.core/src/main/java/org/w3c/util/DateParser.java:178-183 | `String.valueOf` of a non-negative number gives decimal digits whose value is the number, one digit exactly below ten |
| JavaText.IntToString | biz.ganttproject.core/src/main/java/org/w3c/util/DateParser.java:178-183 | `String.valueOf(int)`: the digits, with a '-' in front of negative numbers |
| JavaText.ParseIntToString | biz.ganttproject.core/src/main/java/org/w3c/util/DateParser.java:178-183 | `Integer.parseInt(String.valueOf(i)) == i` for every `int` |
| JavaText.TrimStart | ganttproject/src/main/java/net/sourceforge/ganttproject/parser/TaskSerializer.kt:239 | only leading whitespace is removed, and the result starts with a non-blank character or is empty |
| JavaText.TrimEnd | ganttproject/src/main/java/net/sourceforge/ganttproject/parser/TaskSerializer.kt:239 | only trailing whitespace is removed, and the result ends with a non-blank character or is empty |
| JavaText.LowerCase | ganttproject/src/main/java/biz/ganttproject/storage/Document.kt:301 | `lowercase()` keeps the length and lowers each character |
| JavaText.Split | ganttproject/src/main/java/net/sourceforge/ganttproject/parser/TaskSerializer.kt:239 | `split(",")` gives at least one piece and no piece contains the separator |
| JavaText.SplitJoin | ganttproject/src/main/java/net/sourceforge/ganttproject/parser/TaskSerializer.kt:239 | `split` on a separator undoes joining with it, for pieces that do not contain the separator (also used for the '/' of `DocumentUri.toString`) |
| DateParser.RunLength | biz.ganttproject.core/src/main/java/org/w3c/util/DateParser.java:43 | the length of the run of non-delimiters at the start of the text, stopping exactly at a delimiter |
| DateParser.Tokenize | biz.ganttproject.core/src/main/java/org/w3c/util/DateParser.java:43 | every token of `StringTokenizer(s, "-T:.+Z", true)` is a single delimiter or a run of non-delimiters |
| DateParser.TokenizeConcat | biz.ganttproject.core/src/main/java/org/w3c/util/DateParser.java:43 | tokenizing the concatenation of separable tokens gives those tokens back |
| DateParser.ConcatTokenize | biz.ganttproject.core/src/main/java/org/w3c/util/DateParser.java:43 | concatenating the tokens gives the original text back: the tokenizer loses nothing |
| DateParser.MillisDigits | biz.ganttproject.core/src/main/java/org/w3c/util/DateParser.java:111-115 | the fraction is right-padded with '0' to three characters and cut to its first three |
| DateParser.Tokenizer.constructor | biz.ganttproject.core/src/main/java/org/w3c/util/DateParser.java:43 | the tokenizer starts before the first token of the text |
| DateParser.Tokenizer.NextToken | biz.ganttproject.core/src/main/java/org/w3c/util/DateParser.java:99 | `nextToken` hands out the next token and advances, or reports NoSuchElementException at the end without moving |
| DateParser.Check | biz.ganttproject.core/src/main/java/org/w3c/util/DateParser.java:27-38 | `check` is true when the next token is the expected one, throws "Missing [token]" for another token, and is false at the end of input |
| DateParser.ReadField | biz.ganttproject.core/src/main/java/org/w3c/util/DateParser.java:56-89 | reading one separated field advances past the separator and the value exactly when both are present |
| DateParser.GetCalendar | biz.ganttproject.core/src/main/java/org/w3c/util/DateParser.java:40-162 | the imperative `getCalendar` computes exactly the parse function `Parse` on every input, errors included |
| DateParser.ReadSeconds | biz.ganttproject.core/src/main/java/org/w3c/util/DateParser.java:95-132 | the seconds, fraction and time-zone tail of `getCalendar` agrees with the token-level parse |
| DateParser.ReadZone | biz.ganttproject.core/src/main/java/org/w3c/util/DateParser.java:133-156 | the time-zone tail of `getCalendar` agrees with the token-level zone parse |
| DateParser.ParseFields | biz.ganttproject.core/src/main/java/org/w3c/util/DateParser.java:48-132 | the field parse stops at a time-zone token only at a position inside the token list |
| DateParser.ZoneIndex | biz.ganttproject.core/src/main/java/org/w3c/util/DateParser.java:95-132 | the time zone can only start after the minutes (token 9), the seconds (11) or the fraction (13) |
| DateParser.TwoDigit | biz.ganttproject.core/src/main/java/org/w3c/util/DateParser.java:178-183 | a number below ten gets a leading '0'; any other is printed as it is; below a hundred the text has two characters |
| DateParser.IsoDateNoHours | biz.ganttproject.core/src/main/java/org/w3c/util/DateParser.java:229-239 | the year comes first; with the month and day in range the text is the year and six characters, a '-' before the month and before the day |
| DateParser.IsoDateNoMillis | biz.ganttproject.core/src/main/java/org/w3c/util/DateParser.java:215-227 | the date comes first and the text ends in 'Z'; with the time fields below a hundred the time takes ten characters with 'T', ':' and ':' in place |
| DateParser.IsoDate | biz.ganttproject.core/src/main/java/org/w3c/util/DateParser.java:192-206 | as `getIsoDateNoMillis`, with '.' and two digits of hundredths before the 'Z' when the milliseconds are below a thousand |
| DateParser.TwoDigitDigits | biz.ganttproject.core/src/main/java/org/w3c/util/DateParser.java:178-183 | `twoDigit` prints the decimal digits of a non-negative number, at least two, exactly two below a hundred |
| DateParser.TwoDigitReadBack | biz.ganttproject.core/src/main/java/org/w3c/util/DateParser.java:178-183 | `parseInt(twoDigit(i)) == i` for every non-negative `int` |
| DateParser.HundredthsReadBack | biz.ganttproject.core/src/main/java/org/w3c/util/DateParser.java:111-116 | hundredths printed by `twoDigit(ms / 10)` read back, padded to three digits, as `ms / 10 * 10` |
| DateParser.IsoDateNumbers | biz.ganttproject.core/src/main/java/org/w3c/util/DateParser.java:192-239 | each number `getIsoDate` prints parses back to the calendar field it came from, the month back to its 0-based value |
| DateParser.ReadDate | biz.ganttproject.core/src/main/java/org/w3c/util/DateParser.java:48-68 | year, month and day tokens set the year, the 0-based month and the day; a longer date continues with the hour |
| DateParser.ReadTime | biz.ganttproject.core/src/main/java/org/w3c/util/DateParser.java:70-132 | "Thh:mm:ss" sets the hour, minute and second and clears the milliseconds |
| DateParser.ReadTimeWithFraction | biz.ganttproject.core/src/main/java/org/w3c/util/DateParser.java:107-125 | "Thh:mm:ss.fff" also sets the milliseconds from the padded fraction |
| DateParser.ParseDateShape | biz.ganttproject.core/src/main/java/org/w3c/util/DateParser.java:63-68 | a date with no time parses to that date at midnight, with no offset added (the calendar stays in the default time zone) |
| DateParser.ParseTimeShape | biz.ganttproject.core/src/main/java/org/w3c/util/DateParser.java:95-134 | a date and time ending in Z parses to those fields with zero milliseconds and no offset |
| DateParser.ParseFractionShape | biz.ganttproject.core/src/main/java/org/w3c/util/DateParser.java:107-134 | a date and time with a fraction ending in Z parses to those fields and milliseconds |
| DateParser.ParseDateWords | biz.ganttproject.core/src/main/java/org/w3c/util/DateParser.java:40-68 | the text "y-mo-d" parses to the cleared calendar with that year, month and day |
| DateParser.ParseTimeWords | biz.ganttproject.core/src/main/java/org/w3c/util/DateParser.java:40-134 | the text "y-mo-dTh:mi:secZ" parses to exactly those fields |
| DateParser.ParseFractionWords | biz.ganttproject.core/src/main/java/org/w3c/util/DateParser.java:40-134 | the text "y-mo-dTh:mi:sec.fracZ" parses to exactly those fields, milliseconds included |
| DateParser.DatePiecesParse | biz.ganttproject.core/src/main/java/org/w3c/util/DateParser.java:229-239 | the pieces `getIsoDateNoHours` appends parse back to the same year, month and day |
| DateParser.IsoDateNoHoursRoundTrip | biz.ganttproject.core/src/main/java/org/w3c/util/DateParser.java:229-239 | `parse(getIsoDateNoHours(d))` gives back the date of `d` at midnight |
| DateParser.NoMillisPiecesParse | biz.ganttproject.core/src/main/java/org/w3c/util/DateParser.java:215-227 | the pieces `getIsoDateNoMillis` appends parse back to the same fields without milliseconds |
| DateParser.MillisPiecesParse | biz.ganttproject.core/src/main/java/org/w3c/util/DateParser.java:192-206 | the pieces `getIsoDate` appends parse back to the same fields, milliseconds cut to hundredths |
| DateParser.IsoDateNoMillisRoundTrip | biz.ganttproject.core/src/main/java/org/w3c/util/DateParser.java:215-227 | `parse(getIsoDateNoMillis(d))` gives back `d` without its milliseconds |
| DateParser.IsoDateRoundTrip | biz.ganttproject.core/src/main/java/org/w3c/util/DateParser.java:192-206 | `parse(getIsoDate(d))` gives back `d` with its milliseconds cut to hundredths |
| DateParser.MillisDigitsRange | biz.ganttproject.core/src/main/java/org/w3c/util/DateParser.java:111-116 | the three fraction digits parse to a value between 0 and 999 |
| DateParser.ParsedMillisRange | biz.ganttproject.core/src/main/java/org/w3c/util/DateParser.java:107-125 | every successful parse yields milliseconds between 0 and 999 |
| DateParser.FieldsBeforeZone | biz.ganttproject.core/src/main/java/org/w3c/util/DateParser.java:133-156 | the fields read before the time zone do not depend on what the zone says |
| DateParser.ZoneRead | biz.ganttproject.core/src/main/java/org/w3c/util/DateParser.java:133-156 | after the fields, the result is decided by the zone parse alone |
| DateParser.ZoneUtc | biz.ganttproject.core/src/main/java/org/w3c/util/DateParser.java:134 | a final "Z" adds no offset |
| DateParser.ZoneAhead | biz.ganttproject.core/src/main/java/org/w3c/util/DateParser.java:149-151 | "+hh:mm" adds hh hours and mm minutes |
| DateParser.ZoneBehind | biz.ganttproject.core/src/main/java/org/w3c/util/DateParser.java:152-155 | "-hh:mm" adds the `int` negations of hh hours and mm minutes |
| DateParser.SignedOffset | biz.ganttproject.core/src/main/java/org/w3c/util/DateParser.java:138-155 | a signed "hh:mm" offset is plus or minus hours times sixty plus minutes |
| DateParser.ZoneIncomplete | biz.ganttproject.core/src/main/java/org/w3c/util/DateParser.java:139-148 | a sign without hours fails with "Missing hour field"; hours without ":mm" fail with "Missing minute field" |
| DateParser.PrefixForms | biz.ganttproject.core/src/main/java/org/w3c/util/DateParser.java:48-89 | "y", "y-mo", "y-mo-d", "y-mo-dTh" and "y-mo-dTh:mi" each parse to the cleared calendar with just those fields set |
| DateParser.SecondsErrors | biz.ganttproject.core/src/main/java/org/w3c/util/DateParser.java:100-128 | a ':' with no seconds fails with "No secondes specified"; a '.' with no fraction escapes as NoSuchElementException |
| DateParser.NotAnIntegerYear | biz.ganttproject.core/src/main/java/org/w3c/util/DateParser.java:157-160 | a year that is not an integer fails with "[For input string: …] is not an integer" whatever follows |
| DateParser.ParseBareDotWords | biz.ganttproject.core/src/main/java/org/w3c/util/DateParser.java:107-110 | the text "y-mo-dTh:mi:sec." of integers escapes as NoSuchElementException: `nextToken` after the final '.' finds nothing |
| DateParser.WrongSeparator | biz.ganttproject.core/src/main/java/org/w3c/util/DateParser.java:27-38 | a token other than '-' after the year fails with "Missing [-]" |
| Document.DocumentUri.NameCount | ganttproject/src/main/java/biz/ganttproject/storage/Document.kt:68-70 | the number of path components |
| Document.DocumentUri.Subpath | ganttproject/src/main/java/biz/ganttproject/storage/Document.kt:72-75 | the components from `start` to `end`, absolute only when starting at 0 of an absolute path, same root |
| Document.DocumentUri.Root | ganttproject/src/main/java/biz/ganttproject/storage/Document.kt:77-79 | the root alone: no components, absolute, same root name |
| Document.DocumentUri.Name | ganttproject/src/main/java/biz/ganttproject/storage/Document.kt:81-83 | the name at an index is the component at that index |
| Document.DocumentUri.FileName | ganttproject/src/main/java/biz/ganttproject/storage/Document.kt:85-87 | the file name is the last component |
| Document.DocumentUri.Parent | ganttproject/src/main/java/biz/ganttproject/storage/Document.kt:89-94 | the parent drops the last component, and the root is its own parent |
| Document.DocumentUri.ResolveName | ganttproject/src/main/java/biz/ganttproject/storage/Document.kt:96-107 | "" and "." resolve to the path itself, ".." to the parent, any other name is appended as the new file name |
| Document.DocumentUri.Resolve | ganttproject/src/main/java/biz/ganttproject/storage/Document.kt:109-118 | an absolute path resolves to itself; a relative one resolves its names one by one |
| Document.DocumentUri.Normalize | ganttproject/src/main/java/biz/ganttproject/storage/Document.kt:120-122 | normalizing gives an absolute path with the same root |
| Document.DocumentUri.RootName | ganttproject/src/main/java/biz/ganttproject/storage/Document.kt:124-126 | the root name is the one the path was created with |
| Document.DocumentUri.ToString | ganttproject/src/main/java/biz/ganttproject/storage/Document.kt:148-153 | the text is '/' followed by the components joined with '/' |
| Document.ResolveAllKeepsRoot | ganttproject/src/main/java/biz/ganttproject/storage/Document.kt:109-118 | resolving names never changes absoluteness or the root |
| Document.ResolveAllClean | ganttproject/src/main/java/biz/ganttproject/storage/Document.kt:109-118 | resolving ordinary names (none of "", ".", "..") appends them |
| Document.ResolveAllStaysClean | ganttproject/src/main/java/biz/ganttproject/storage/Document.kt:109-118 | resolving from a clean path keeps it free of "", "." and ".." |
| Document.NormalizeClean | ganttproject/src/main/java/biz/ganttproject/storage/Document.kt:120-122 | a normalized path has no "", "." or ".." component |
| Document.NormalizeOfClean | ganttproject/src/main/java/biz/ganttproject/storage/Document.kt:120-122 | normalizing a clean path only makes it absolute |
| Document.NormalizeIdempotent | ganttproject/src/main/java/biz/ganttproject/storage/Document.kt:120-122 | normalizing twice is normalizing once |
| Document.ResolveRelativeAppends | ganttproject/src/main/java/biz/ganttproject/storage/Document.kt:109-118 | resolving a clean relative path adds exactly its names |
| Document.ToStringIgnoresRoot | ganttproject/src/main/java/biz/ganttproject/storage/Document.kt:148-153 | the text depends only on the components, not on the root name |
| Document.ToStringSplit | ganttproject/src/main/java/biz/ganttproject/storage/Document.kt:148-153 | splitting the text after the leading '/' on '/' gives the components back |
| Document.WithGanExtension | ganttproject/src/main/java/biz/ganttproject/storage/Document.kt:300-305 | a name already ending in ".gan", in any letter case, is kept; any other name gets ".gan" appended |
| Document.WithGanExtensionEnds | ganttproject/src/main/java/biz/ganttproject/storage/Document.kt:300-305 | the result always ends in ".gan", ignoring case |
| Document.WithGanExtensionIdempotent | ganttproject/src/main/java/biz/ganttproject/storage/Document.kt:300-305 | adding the extension twice is adding it once |
| TaskColumns.IsEditable | biz.ganttproject.core/src/main/java/biz/ganttproject/core/model/task/TaskDefaultColumn.java:127-129 | a column without a rule is editable; one with a rule is editable when the rule accepts the task |
| TaskColumns.DefaultEditable | biz.ganttproject.core/src/main/java/biz/ganttproject/core/model/task/TaskDefaultColumn.java:40-56 | by default every column is editable except info, coordinator, id, outline number and resources |
| TaskColumns.GetName | biz.ganttproject.core/src/main/java/biz/ganttproject/core/model/task/TaskDefaultColumn.java:139-141 | the display name is the name key, translated when a locale is set |
| TaskColumns.GetCustomPropertyClass | biz.ganttproject.core/src/main/java/biz/ganttproject/core/model/task/TaskDefaultColumn.java:143-154 | integer, big decimal and calendar columns map to the Integer, Double and Date property classes; no column is Boolean |
| TaskColumns.CustomPropertyClasses | biz.ganttproject.core/src/main/java/biz/ganttproject/core/model/task/TaskDefaultColumn.java:143-154 | duration, completion and id are Integer; cost is Double; the begin and end dates are Date |
| TaskColumns.FindIn | biz.ganttproject.core/src/main/java/biz/ganttproject/core/model/task/TaskDefaultColumn.java:110-117 | the lookup returns a column with the given stub id, or none when no column has it |
| TaskColumns.Find | biz.ganttproject.core/src/main/java/biz/ganttproject/core/model/task/TaskDefaultColumn.java:110-117 | `find` scans the columns in declaration order and returns the first match |
| TaskColumns.StubIdsDistinct | biz.ganttproject.core/src/main/java/biz/ganttproject/core/model/task/TaskDefaultColumn.java:40-56 | no two columns share a stub id |
| TaskColumns.FindInMember | biz.ganttproject.core/src/main/java/biz/ganttproject/core/model/task/TaskDefaultColumn.java:110-117 | looking up the id of a listed column finds that column |
| TaskColumns.FindStub | biz.ganttproject.core/src/main/java/biz/ganttproject/core/model/task/TaskDefaultColumn.java:110-117 | `find(c.stub.id)` is `c` for every column |
| TaskColumns.GetColumnStubs | biz.ganttproject.core/src/main/java/biz/ganttproject/core/model/task/TaskDefaultColumn.java:100-108 | one stub per column in declaration order, each named with its display name |
| TaskColumns.Signum | biz.ganttproject.core/src/main/java/biz/ganttproject/core/model/task/TaskDefaultColumn.java:164-166 | `Integer.signum`: -1, 0 or 1 with the sign of the argument |
| TaskColumns.CompareAsWritten | biz.ganttproject.core/src/main/java/biz/ganttproject/core/model/task/TaskDefaultColumn.java:161-177 | the comparator as written returns -1, 0 or 1 |
| TaskColumns.CompareOutline | biz.ganttproject.core/src/main/java/biz/ganttproject/core/model/task/TaskDefaultColumn.java:161-177 | the intended comparator returns -1, 0 or 1 |
| TaskColumns.Compare | biz.ganttproject.core/src/main/java/biz/ganttproject/core/model/task/TaskDefaultColumn.java:161-177 | the scanning loop computes the comparator as written, which equals the intended order on non-negative outline numbers |
| TaskColumns.IntPrefix | biz.ganttproject.core/src/main/java/biz/ganttproject/core/model/task/TaskDefaultColumn.java:161-177 | the leading run of integers, stopping at the first token that is not one |
| TaskColumns.CompareOutlineLex | biz.ganttproject.core/src/main/java/biz/ganttproject/core/model/task/TaskDefaultColumn.java:161-177 | outline numbers compare lexicographically by their integer prefixes, a proper prefix first |
| TaskColumns.LexAntisymmetric | biz.ganttproject.core/src/main/java/biz/ganttproject/core/model/task/TaskDefaultColumn.java:161-177 | swapping the arguments negates the lexicographic comparison |
| TaskColumns.LexReflexive | biz.ganttproject.core/src/main/java/biz/ganttproject/core/model/task/TaskDefaultColumn.java:161-177 | a sequence compares equal to itself |
| TaskColumns.LexPrefix | biz.ganttproject.core/src/main/java/biz/ganttproject/core/model/task/TaskDefaultColumn.java:169-175 | a proper prefix sorts first, so "1.2" precedes "1.2.1" |
| TaskColumns.CompareOutlineOrder | biz.ganttproject.core/src/main/java/biz/ganttproject/core/model/task/TaskDefaultColumn.java:161-177 | the intended comparator is antisymmetric and calls equal any two numbers with the same integer prefix |
| TaskColumns.CompareNoOverflow | biz.ganttproject.core/src/main/java/biz/ganttproject/core/model/task/TaskDefaultColumn.java:164-166 | on non-negative numbers the subtraction cannot overflow, so the comparator as written equals the intended one |
| TaskColumns.CompareWrapsAround | biz.ganttproject.core/src/main/java/biz/ganttproject/core/model/task/TaskDefaultColumn.java:164-166 | with `Integer.MIN_VALUE` against 0 the comparator as written says "less" both ways round |
| Mnemonics.RemoveMnemonicsPlaceholder | ganttproject/src/main/java/biz/ganttproject/app/Internationalization.kt:37 | the result holds no '$' and is no longer than the input |
| Mnemonics.RemoveAppend | ganttproject/src/main/java/biz/ganttproject/app/Internationalization.kt:37 | removal works piece by piece over concatenation |
| Mnemonics.RemoveOne | ganttproject/src/main/java/biz/ganttproject/app/Internationalization.kt:37 | a single '$' disappears and every other character stays |
| Mnemonics.RemoveLength | ganttproject/src/main/java/biz/ganttproject/app/Internationalization.kt:37 | the result is shorter by exactly the number of '$' |
| Mnemonics.RemoveIdentity | ganttproject/src/main/java/biz/ganttproject/app/Internationalization.kt:37 | text without '$' is unchanged |
| Mnemonics.RemoveIdempotent | ganttproject/src/main/java/biz/ganttproject/app/Internationalization.kt:37 | removing twice is removing once |
| UiMessages.BuildMessage | ganttproject/src/main/java/net/sourceforge/ganttproject/UIFacadeImpl.java:364-374 | the loop over the cause chain builds the non-null messages, each followed by "<br>", skipping a repeat of the previous one |
| UiMessages.BuildMessageEmpty | ganttproject/src/main/java/net/sourceforge/ganttproject/UIFacadeImpl.java:364-374 | the message is empty exactly when every message along the chain is null |
| UiMessages.AppendedNoRepeats | ganttproject/src/main/java/net/sourceforge/ganttproject/UIFacadeImpl.java:367-369 | no message follows an identical one |
| UiMessages.AppendedComplete | ganttproject/src/main/java/net/sourceforge/ganttproject/UIFacadeImpl.java:364-374 | every non-null message of the chain appears in the text |
| UiMessages.ExceptionReport | ganttproject/src/main/java/net/sourceforge/ganttproject/UIFacadeImpl.java:468-480 | the report starts with the message ("null" when absent); a document exception stops there, any other adds a blank line and the stack trace |
| UiMessages.AlertType | ganttproject/src/main/java/net/sourceforge/ganttproject/UIFacadeImpl.java:281 | the alert type is the message type with the HTML and Markdown flag bits cleared and every other bit kept |
| UiMessages.AlertKindOf | ganttproject/src/main/java/net/sourceforge/ganttproject/UIFacadeImpl.java:282-299 | an alert opens exactly for error, information, warning and question types |
| UiMessages.AlertKindIgnoresFlags | ganttproject/src/main/java/net/sourceforge/ganttproject/UIFacadeImpl.java:281 | setting the HTML or Markdown flag never changes which alert opens |
| FileValidation.BasicValidateFile | ganttproject/src/main/java/net/sourceforge/ganttproject/gui/ImpexWizard.kt:8-19 | a file is accepted exactly when it exists and is readable; otherwise "file does not exist" or "read error" |
| FileValidation.ImportValidateFile | ganttproject/src/main/java/net/sourceforge/ganttproject/importer/ImportFileWizard.kt:173-181 | the import page also refuses a directory, after the basic checks |
| FileValidation.ExportVerdict | ganttproject/src/main/java/net/sourceforge/ganttproject/export/ExportFileChooserPage.kt:66-107 | an export file is accepted exactly when it is new in a writable existing directory, or exists, is writable and overwriting is checked. Each refusal has its own message: "File cannot be null" for no file; a NullPointerException for a new file without a parent; "directory does not exist" or "directory is read-only" with the parent's path for a new file; "directory is read-only" or "file is read-only" with the file's own path for an existing read-only target; "file exists" for an existing writable file without the overwrite check |
| FileValidation.ExportFileChooserPage.constructor | ganttproject/src/main/java/net/sourceforge/ganttproject/export/ExportFileChooserPage.kt:43-64 | the overwrite option starts writable, with the given checked state |
| FileValidation.ExportFileChooserPage.ValidateFile | ganttproject/src/main/java/net/sourceforge/ganttproject/export/ExportFileChooserPage.kt:66-107 | validation returns the verdict for the current overwrite option and updates whether that option is writable |
| Wizard.RemoveFirst | ganttproject/src/main/java/net/sourceforge/ganttproject/gui/projectwizard/WizardImplFx.kt:68-71 | `MutableList.remove` drops one element when present and changes nothing otherwise |
| Wizard.IndexOf | ganttproject/src/main/java/net/sourceforge/ganttproject/gui/projectwizard/WizardImplFx.kt:68-71 | the first position of a present element |
| Wizard.RemoveFirstAt | ganttproject/src/main/java/net/sourceforge/ganttproject/gui/projectwizard/WizardImplFx.kt:68-71 | `remove` drops exactly the first occurrence |
| Wizard.RemoveFirstMultiset | ganttproject/src/main/java/net/sourceforge/ganttproject/gui/projectwizard/WizardImplFx.kt:68-71 | `remove` takes away one copy of the element |
| Wizard.RemoveFirstAppended | ganttproject/src/main/java/net/sourceforge/ganttproject/importer/ImportFileWizard.kt:56-62 | removing a page that was just appended restores the page list |
| Wizard.WizardModel.constructor | ganttproject/src/main/java/net/sourceforge/ganttproject/gui/projectwizard/WizardImplFx.kt:49-61 | a new wizard has no pages, page count 0 and the first page current |
| Wizard.WizardModel.Import | ganttproject/src/main/java/net/sourceforge/ganttproject/importer/ImportFileWizard.kt:45-62 | the import wizard starts with the importer chooser page and the file page, on the first page |
| Wizard.WizardModel.AddPage | ganttproject/src/main/java/net/sourceforge/ganttproject/gui/projectwizard/WizardImplFx.kt:63-66 | the page is appended and the page count follows the list |
| Wizard.WizardModel.RemovePage | ganttproject/src/main/java/net/sourceforge/ganttproject/gui/projectwizard/WizardImplFx.kt:68-71 | the first occurrence of the page is removed and the page count follows the list |
| Wizard.WizardModel.HasPrev | ganttproject/src/main/java/net/sourceforge/ganttproject/gui/projectwizard/WizardImplFx.kt:73-75 | there is a previous page exactly when the current page is not the first |
| Wizard.WizardModel.HasNext | ganttproject/src/main/java/net/sourceforge/ganttproject/gui/projectwizard/WizardImplFx.kt:56 | by default a next page exists unless on the last page; the import wizard needs an importer on page 0 and a custom page and a file on page 1 |
| Wizard.WizardModel.CanFinish | ganttproject/src/main/java/net/sourceforge/ganttproject/importer/ImportFileWizard.kt:97 | the default wizard can always finish; the import wizard needs both an importer and a file |
| Wizard.WizardModel.NextPage | ganttproject/src/main/java/net/sourceforge/ganttproject/gui/projectwizard/WizardImplFx.kt:159-165 | moves one page forward exactly when there is a next page, and stays on a page that exists |
| Wizard.WizardModel.BackPage | ganttproject/src/main/java/net/sourceforge/ganttproject/gui/projectwizard/WizardImplFx.kt:167-173 | moves one page back exactly when there is a previous page |
| Wizard.WizardModel.ButtonsDisabled | ganttproject/src/main/java/net/sourceforge/ganttproject/gui/projectwizard/WizardImplFx.kt:199-203 | back, next and finish are disabled exactly when there is no previous page, no next page, or finishing is not allowed |
| Wizard.WizardModel.SetCustomPage | ganttproject/src/main/java/net/sourceforge/ganttproject/importer/ImportFileWizard.kt:56-62 | a custom page that appears is appended, one that disappears is removed, and the page count follows |
| Wizard.WizardModel.SetImporter | ganttproject/src/main/java/net/sourceforge/ganttproject/importer/ImportFileWizard.kt:78-84 | setting the importer takes its custom page, rebuilds the pages as the two base pages plus that page, and asks for a refresh |
| Wizard.WizardModel.SetFile | ganttproject/src/main/java/net/sourceforge/ganttproject/importer/ImportFileWizard.kt:87-91 | setting the file remembers it for the chosen importer |
| Observable.Deliveries | biz.ganttproject.core/src/main/java/biz/ganttproject/core/option/ObservableProperty.kt:61-64 | one event per watcher, in registration order |
| Observable.CalledOncePerRegistration | biz.ganttproject.core/src/main/java/biz/ganttproject/core/option/ObservableProperty.kt:61-64 | a watcher registered n times is called n times per change |
| Observable.ObservableImpl.constructor | biz.ganttproject.core/src/main/java/biz/ganttproject/core/option/ObservableProperty.kt:44-46 | the initial value, no watchers and nothing delivered |
| Observable.ObservableImpl.Set | biz.ganttproject.core/src/main/java/biz/ganttproject/core/option/ObservableProperty.kt:47-51 | the new value is stored, then every watcher gets the old value, the new value and the trigger |
| Observable.ObservableImpl.SetValue | biz.ganttproject.core/src/main/java/biz/ganttproject/core/option/ObservableProperty.kt:53-55 | assigning the value is `set` without a trigger |
| Observable.ObservableImpl.AddWatcher | biz.ganttproject.core/src/main/java/biz/ganttproject/core/option/ObservableProperty.kt:57-59 | the watcher is appended and the value is unchanged |
| Observable.ObservableImpl.FirePropertyChanged | biz.ganttproject.core/src/main/java/biz/ganttproject/core/option/ObservableProperty.kt:61-64 | one event per registered watcher, value and watchers unchanged |
| Observable.ObservableProperty.constructor | biz.ganttproject.core/src/main/java/biz/ganttproject/core/option/ObservableProperty.kt:68-74 | a property starts with its initial value and writable |
| Observable.ObservableProperty.Set | biz.ganttproject.core/src/main/java/biz/ganttproject/core/option/ObservableProperty.kt:76-78 | setting delegates to the value holder and leaves the writable flag alone |
| Observable.ObservableProperty.SetWritable | biz.ganttproject.core/src/main/java/biz/ganttproject/core/option/ObservableProperty.kt:79-81 | the writable flag changes and notifies its own watchers, the value stays |
| Observable.ObservableProperty.IfChanged | biz.ganttproject.core/src/main/java/biz/ganttproject/core/option/ObservableProperty.kt:83-87 | the callback runs, with the current value, exactly when the value differs from the initial one |
| Observable.AcceptAll | biz.ganttproject.core/src/main/java/biz/ganttproject/core/option/ObservableProperty.kt:115 | the default date validator accepts the new value |
| Observable.ObservableDate.constructor | biz.ganttproject.core/src/main/java/biz/ganttproject/core/option/ObservableProperty.kt:114-115 | a date property with the given initial value and validator |
| Observable.ObservableDate.Set | biz.ganttproject.core/src/main/java/biz/ganttproject/core/option/ObservableProperty.kt:117-124 | a date the validator accepts is stored and announced; a rejected one throws the validator's message and changes nothing |
| Observable.DefaultValidatorAccepts | biz.ganttproject.core/src/main/java/biz/ganttproject/core/option/ObservableProperty.kt:114-124 | with the default validator every date is stored |
| Menus.AsMenuItem | ganttproject/src/main/java/biz/ganttproject/app/Menu.kt:277-312 | the separator becomes a separator item, an action with a selection state becomes a check box, any other action a plain item |
| Menus.MapAsMenuItem | ganttproject/src/main/java/biz/ganttproject/app/Menu.kt:77-82 | one item per action, in order |
| Menus.FlattenBalanced | ganttproject/src/main/java/biz/ganttproject/app/Menu.kt:192-198 | the action list of a well-formed builder program has every submenu marker closed |
| Menus.MenuBuilderAsList.constructor | ganttproject/src/main/java/biz/ganttproject/app/Menu.kt:178-179 | a list builder starts empty |
| Menus.MenuBuilderAsList.Items | ganttproject/src/main/java/biz/ganttproject/app/Menu.kt:180-186 | the actions are appended |
| Menus.MenuBuilderAsList.Separator | ganttproject/src/main/java/biz/ganttproject/app/Menu.kt:188-190 | the separator marker is appended |
| Menus.MenuBuilderAsList.Submenu | ganttproject/src/main/java/biz/ganttproject/app/Menu.kt:192-198 | a submenu appends its opening action, the body's actions and the closing marker |
| Menus.MenuBuilderAsList.Run | ganttproject/src/main/java/biz/ganttproject/app/Menu.kt:178-201 | running a program appends its flattened action list |
| Menus.MenuBuilderAsList.Actions | ganttproject/src/main/java/biz/ganttproject/app/Menu.kt:200 | `actions()` is the list built so far |
| Menus.AddItem | ganttproject/src/main/java/biz/ganttproject/app/Menu.kt:75 | an item goes at the end of the innermost open menu, the outer menus unchanged |
| Menus.Close | ganttproject/src/main/java/biz/ganttproject/app/Menu.kt:84-100 | closing a submenu removes the innermost open menu and adds it, with its title and items, as the last item of its parent; the outer menus are unchanged |
| Menus.MenuBuilderSwing.constructor | ganttproject/src/main/java/biz/ganttproject/app/Menu.kt:125-130 | a Swing builder starts with the popup menu open and nothing closed |
| Menus.MenuBuilderSwing.Add | ganttproject/src/main/java/biz/ganttproject/app/Menu.kt:132-152 | each action steps the menu stack; adding with no menu open throws |
| Menus.MenuBuilderSwing.Items | ganttproject/src/main/java/biz/ganttproject/app/Menu.kt:154-159 | items are the actions added one by one; EmptyStackException is thrown exactly when some action is reached with no menu open |
| Menus.MenuBuilderSwing.Submenu | ganttproject/src/main/java/biz/ganttproject/app/Menu.kt:162-173 | with no menu open `peek` throws EmptyStackException and nothing changes; otherwise the submenu is opened, its body run, and it stays open as the Swing builder does, passing on what the body throws |
| Menus.MenuBuilderSwing.Run | ganttproject/src/main/java/biz/ganttproject/app/Menu.kt:122-176 | running a program gives the Swing menu state of that program, and throws exactly when one of its calls throws |
| Menus.RunThrowsStopped | ganttproject/src/main/java/biz/ganttproject/app/Menu.kt:132-133 | once a call has thrown EmptyStackException no menu is open, so nothing more is added |
| Menus.WellFormedNeverThrows | ganttproject/src/main/java/biz/ganttproject/app/Menu.kt:122-176 | code whose `items` pass only ordinary actions, run while a menu is open, never throws and leaves a menu open |
| Menus.ReplayFlatten | ganttproject/src/main/java/biz/ganttproject/app/Menu.kt:122-201 | replaying the action list of the list builder through the Swing builder gives the tree the JavaFX builder builds |
| Menus.ReplayFlattenCall | ganttproject/src/main/java/biz/ganttproject/app/Menu.kt:122-201 | the same for one builder call |
| Menus.ReplayOrdinary | ganttproject/src/main/java/biz/ganttproject/app/Menu.kt:132-152 | ordinary actions each add their item to the innermost menu |
| Menus.ReplayBalancedDepth | ganttproject/src/main/java/biz/ganttproject/app/Menu.kt:132-152 | replaying a balanced action list closes as many menus as it opens |
| Menus.UnmatchedEndPopsRoot | ganttproject/src/main/java/biz/ganttproject/app/Menu.kt:132-152 | an unmatched submenu end pops the root, and every later action is lost |
| Menus.ReplayEmpty | ganttproject/src/main/java/biz/ganttproject/app/Menu.kt:132-152 | with no menu open nothing more is added |
| Menus.SwingSubmenuStaysOpen | ganttproject/src/main/java/biz/ganttproject/app/Menu.kt:162-166 | after `submenu` the Swing builder leaves the submenu open, so later items land inside it |
| Menus.MenuBuilderFx.constructor | ganttproject/src/main/java/biz/ganttproject/app/Menu.kt:70-74 | a JavaFX builder starts with the context menu open |
| Menus.MenuBuilderFx.Add | ganttproject/src/main/java/biz/ganttproject/app/Menu.kt:75 | the item goes to the innermost open menu |
| Menus.MenuBuilderFx.Items | ganttproject/src/main/java/biz/ganttproject/app/Menu.kt:77-82 | one menu item per action, in order |
| Menus.MenuBuilderFx.Separator | ganttproject/src/main/java/biz/ganttproject/app/Menu.kt:83 | a separator item is added |
| Menus.MenuBuilderFx.Submenu | ganttproject/src/main/java/biz/ganttproject/app/Menu.kt:84-100 | the submenu holding its body's items is added to the enclosing menu |
| Menus.MenuBuilderFx.Run | ganttproject/src/main/java/biz/ganttproject/app/Menu.kt:68-102 | running a program adds the program's item tree |
| Menus.ConvertItem | ganttproject/src/main/java/biz/ganttproject/app/Menu.kt:46-55 | a null action becomes a separator, any other action its menu item |
| Menus.ConvertItems | ganttproject/src/main/java/biz/ganttproject/app/Menu.kt:46-55 | one item per action, in order |
| Menus.MenuBarBuilder.constructor | ganttproject/src/main/java/biz/ganttproject/app/Menu.kt:43-45 | the menu bar starts empty |
| Menus.MenuBarBuilder.AddMenu | ganttproject/src/main/java/biz/ganttproject/app/Menu.kt:46-55 | a menu with the title and the converted items is appended |
| Menus.ConvertMenu | ganttproject/src/main/java/biz/ganttproject/app/Menu.kt:314-326 | one JavaFX menu per Swing menu, same title, items converted in order |
| AssignmentTable.Rows | ganttproject/src/main/java/net/sourceforge/ganttproject/gui/taskproperties/TaskResourcesPanel.kt:87-97 | one row per assignment in order, then the empty row for adding |
| AssignmentTable.PlaceholderIsLast | ganttproject/src/main/java/net/sourceforge/ganttproject/gui/taskproperties/TaskResourcesPanel.kt:94-95 | the only row without an assignment is the last one |
| AssignmentTable.RestoredSelection | ganttproject/src/main/java/net/sourceforge/ganttproject/gui/resourceproperties/ResourceAssignmentsPanelFx.kt:77-79 | the previous selection is kept when its row still exists, otherwise nothing is selected |
| AssignmentTable.Picked | ganttproject/src/main/java/net/sourceforge/ganttproject/gui/taskproperties/TaskResourcesPanel.kt:360 | the assignments on selected rows that exist, and nothing else |
| AssignmentTable.RemoveAll | ganttproject/src/main/java/net/sourceforge/ganttproject/gui/taskproperties/TaskResourcesPanel.kt:362 | `removeAll` keeps exactly the elements not in the removed list |
| AssignmentTable.DeleteSelected | ganttproject/src/main/java/net/sourceforge/ganttproject/gui/taskproperties/TaskResourcesPanel.kt:359-363 | with distinct assignments, one is removed exactly when its row is selected |
| AssignmentTable.PickedDistinct | ganttproject/src/main/java/net/sourceforge/ganttproject/gui/taskproperties/TaskResourcesPanel.kt:360 | with distinct assignments, one is picked exactly when its row is selected |
| TaskResources.CreateAssignment | ganttproject/src/main/java/net/sourceforge/ganttproject/gui/taskproperties/TaskResourcesPanel.kt:349-357 | a resource value adds an assignment with load 100, coordinator when it is the first, and the resource's role; anything else changes nothing |
| TaskResources.UpdateAssignment | ganttproject/src/main/java/net/sourceforge/ganttproject/gui/taskproperties/TaskResourcesPanel.kt:311-347 | column 1 null deletes the row and records its deletion; column 1 resource replaces it by a new assignment (fresh key, no role) keeping load and coordinator, with a delete and an add call on the mutator; columns 2, 3 and 4 set only the load, the coordinator flag or the role of that row for values of the right kind, and change nothing else; any other value or column changes nothing |
| TaskResources.SetValueAtState | ganttproject/src/main/java/net/sourceforge/ganttproject/gui/taskproperties/TaskResourcesPanel.kt:303-309 | past the last assignment a value creates one, otherwise it updates the row; assignment keys stay unique |
| TaskResources.ResourceAssignmentTableModel.constructor | ganttproject/src/main/java/net/sourceforge/ganttproject/gui/taskproperties/TaskResourcesPanel.kt:295-298 | the model starts with the task's assignments and no pending changes |
| TaskResources.ResourceAssignmentTableModel.Assignments | ganttproject/src/main/java/net/sourceforge/ganttproject/gui/taskproperties/TaskResourcesPanel.kt:300-301 | the current assignments |
| TaskResources.ResourceAssignmentTableModel.SetValueAt | ganttproject/src/main/java/net/sourceforge/ganttproject/gui/taskproperties/TaskResourcesPanel.kt:303-309 | the edit gives the new table state of `SetValueAtState` |
| TaskResources.ResourceAssignmentTableModel.CreateAssignmentFrom | ganttproject/src/main/java/net/sourceforge/ganttproject/gui/taskproperties/TaskResourcesPanel.kt:349-357 | creation gives the new table state of `CreateAssignment` |
| TaskResources.ResourceAssignmentTableModel.UpdateAssignmentAt | ganttproject/src/main/java/net/sourceforge/ganttproject/gui/taskproperties/TaskResourcesPanel.kt:311-347 | the update gives the new table state of `UpdateAssignment` |
| TaskResources.ResourceAssignmentTableModel.Delete | ganttproject/src/main/java/net/sourceforge/ganttproject/gui/taskproperties/TaskResourcesPanel.kt:359-363 | the assignments on selected rows are deleted and removed, the rest stay in order |
| TaskResources.ResourceAssignmentTableModel.RecordDeleted | ganttproject/src/main/java/net/sourceforge/ganttproject/gui/taskproperties/TaskResourcesPanel.kt:361 | each assignment to delete is deleted, in order, and the list itself is untouched |
| TaskResources.ResourceAssignmentTableModel.Commit | ganttproject/src/main/java/net/sourceforge/ganttproject/gui/taskproperties/TaskResourcesPanel.kt:365-367 | commit applies the pending mutator and keeps the table |
| TaskResources.CostOf | ganttproject/src/main/java/net/sourceforge/ganttproject/gui/taskproperties/TaskResourcesPanel.kt:274-278 | a calculated cost is stored as zero and calculated; a manual one with its value |
| TaskResources.TaskResourcesPanel.constructor | ganttproject/src/main/java/net/sourceforge/ganttproject/gui/taskproperties/TaskResourcesPanel.kt:61-70 | the panel starts with no rows, nothing selected, and the task's cost options |
| TaskResources.TaskResourcesPanel.RefreshTable | ganttproject/src/main/java/net/sourceforge/ganttproject/gui/taskproperties/TaskResourcesPanel.kt:87-97 | the rows are rebuilt from the assignments and the selection is kept when its row exists |
| TaskResources.TaskResourcesPanel.DeleteSelectedRow | ganttproject/src/main/java/net/sourceforge/ganttproject/gui/taskproperties/TaskResourcesPanel.kt:212-218 | with a row selected, its assignment is removed and recorded as deleted, the table is rebuilt and the selection restored; with none, nothing changes; mutator calls, keys and the commit flag stay |
| TaskResources.TaskResourcesPanel.DeleteEnabled | ganttproject/src/main/java/net/sourceforge/ganttproject/gui/taskproperties/TaskResourcesPanel.kt:238-240 | delete is enabled exactly when a row other than the last is selected |
| TaskResources.TaskResourcesPanel.Commit | ganttproject/src/main/java/net/sourceforge/ganttproject/gui/taskproperties/TaskResourcesPanel.kt:272-280 | the model is committed and the cost is the one chosen in the options |
| TaskResources.DeleteEnabledOnAssignmentRows | ganttproject/src/main/java/net/sourceforge/ganttproject/gui/taskproperties/TaskResourcesPanel.kt:238-240 | on a panel whose rows are built from the model's list, `DeleteEnabled()` holds exactly when the selected row holds an assignment |
| TaskResources.DeleteRemovesSelected | ganttproject/src/main/java/net/sourceforge/ganttproject/gui/taskproperties/TaskResourcesPanel.kt:359-363 | an assignment disappears exactly when its row was selected |
| TaskResources.EditsKeepValid | ganttproject/src/main/java/net/sourceforge/ganttproject/gui/taskproperties/TaskResourcesPanel.kt:303-357 | any sequence of edits keeps assignment keys unique |
| ResourceAssignmentsFx.WithCall | ganttproject/src/main/java/net/sourceforge/ganttproject/gui/resourceproperties/ResourceAssignmentsPanelFx.kt:217-221 | `getOrPut` reuses a task's mutator or creates one, and the call is recorded on it |
| ResourceAssignmentsFx.DeleteCallsMutators | ganttproject/src/main/java/net/sourceforge/ganttproject/gui/resourceproperties/ResourceAssignmentsPanelFx.kt:223-229 | deletion opens a mutator for each deleted assignment's task and keeps earlier calls |
| ResourceAssignmentsFx.ResourceAssignmentTableModelFx.constructor | ganttproject/src/main/java/net/sourceforge/ganttproject/gui/resourceproperties/ResourceAssignmentsPanelFx.kt:182-185 | the model starts with the resource's assignments, nothing to delete and no mutators |
| ResourceAssignmentsFx.ResourceAssignmentTableModelFx.SetValueAt | ganttproject/src/main/java/net/sourceforge/ganttproject/gui/resourceproperties/ResourceAssignmentsPanelFx.kt:190-215 | null is ignored; a task past the last row adds an assignment with load 100; a number in column 2 sets the load; anything else changes nothing |
| ResourceAssignmentsFx.ResourceAssignmentTableModelFx.GetMutator | ganttproject/src/main/java/net/sourceforge/ganttproject/gui/resourceproperties/ResourceAssignmentsPanelFx.kt:217-221 | the task gets a mutator, the existing one if any |
| ResourceAssignmentsFx.ResourceAssignmentTableModelFx.CallMutator | ganttproject/src/main/java/net/sourceforge/ganttproject/gui/resourceproperties/ResourceAssignmentsPanelFx.kt:210-211 | the call is recorded on the task's mutator |
| ResourceAssignmentsFx.ResourceAssignmentTableModelFx.Delete | ganttproject/src/main/java/net/sourceforge/ganttproject/gui/resourceproperties/ResourceAssignmentsPanelFx.kt:223-231 | selected assignments are removed, recorded for deletion, and their tasks' mutators told |
| ResourceAssignmentsFx.ResourceAssignmentTableModelFx.RecordDeletes | ganttproject/src/main/java/net/sourceforge/ganttproject/gui/resourceproperties/ResourceAssignmentsPanelFx.kt:225-229 | each removed assignment is recorded and its mutator told |
| ResourceAssignmentsFx.ResourceAssignmentTableModelFx.Commit | ganttproject/src/main/java/net/sourceforge/ganttproject/gui/resourceproperties/ResourceAssignmentsPanelFx.kt:233-240 | every mutator commits, and recorded assignments no longer in the list are deleted |
| ResourceAssignmentsFx.ResourceAssignmentTableModelFx.CommitMutators | ganttproject/src/main/java/net/sourceforge/ganttproject/gui/resourceproperties/ResourceAssignmentsPanelFx.kt:234 | every mutator commits |
| ResourceAssignmentsFx.ResourceAssignmentTableModelFx.DeleteRemoved | ganttproject/src/main/java/net/sourceforge/ganttproject/gui/resourceproperties/ResourceAssignmentsPanelFx.kt:235-239 | recorded assignments no longer in the list are deleted |
| ResourceAssignmentsFx.StillRemoved | ganttproject/src/main/java/net/sourceforge/ganttproject/gui/resourceproperties/ResourceAssignmentsPanelFx.kt:235-239 | the recorded assignments that are not in the current list |
| ResourceAssignmentsFx.CommitDeletesOnlyRemoved | ganttproject/src/main/java/net/sourceforge/ganttproject/gui/resourceproperties/ResourceAssignmentsPanelFx.kt:235-239 | a recorded assignment is deleted exactly when it is no longer in the list |
| ResourceAssignmentsFx.DeleteThenCommit | ganttproject/src/main/java/net/sourceforge/ganttproject/gui/resourceproperties/ResourceAssignmentsPanelFx.kt:223-239 | the panel's delete followed by its commit deletes a listed assignment exactly when its row was selected, whatever was staged before |
| ResourceAssignmentsFx.TaskEditStarts | ganttproject/src/main/java/net/sourceforge/ganttproject/gui/resourceproperties/ResourceAssignmentsPanelFx.kt:267-272 | the task editor opens exactly on a row without an assignment |
| ResourceAssignmentsFx.TaskEditOnlyOnLastRow | ganttproject/src/main/java/net/sourceforge/ganttproject/gui/resourceproperties/ResourceAssignmentsPanelFx.kt:267-272 | the task cell can be edited only on the empty last row |
| ResourceAssignmentsFx.ResourceAssignmentsPanelFx.constructor | ganttproject/src/main/java/net/sourceforge/ganttproject/gui/resourceproperties/ResourceAssignmentsPanelFx.kt:52-54 | the panel starts with no rows and nothing selected |
| ResourceAssignmentsFx.ResourceAssignmentsPanelFx.RefreshTable | ganttproject/src/main/java/net/sourceforge/ganttproject/gui/resourceproperties/ResourceAssignmentsPanelFx.kt:68-80 | the rows are rebuilt and the selection kept when its row exists |
| ResourceAssignmentsFx.ResourceAssignmentsPanelFx.Delete | ganttproject/src/main/java/net/sourceforge/ganttproject/gui/resourceproperties/ResourceAssignmentsPanelFx.kt:56-59 | the selected assignments are removed, staged for deletion and their mutators told, as the model's `delete` states; the table is rebuilt and the selection restored |
| ResourceAssignmentsFx.ResourceAssignmentsPanelFx.Commit | ganttproject/src/main/java/net/sourceforge/ganttproject/gui/resourceproperties/ResourceAssignmentsPanelFx.kt:82-84 | committing the panel commits every mutator and deletes the staged assignments no longer listed; the list, the staged deletions and the mutators stay |
| TaskSerializer.TaskManager.constructor | ganttproject/src/main/java/net/sourceforge/ganttproject/parser/TaskSerializer.kt:72-73 | the task manager starts with no tasks and no dependencies |
| TaskSerializer.Duration | ganttproject/src/main/java/net/sourceforge/ganttproject/parser/TaskSerializer.kt:81 | a negative duration becomes 1, any other is kept |
| TaskSerializer.ParentTask | ganttproject/src/main/java/net/sourceforge/ganttproject/parser/TaskSerializer.kt:83-91 | a parent is set exactly when the XML parent was loaded before, and then it is that task |
| TaskSerializer.CostOf | ganttproject/src/main/java/net/sourceforge/ganttproject/parser/TaskSerializer.kt:139-141 | a missing manual cost is zero; the cost is calculated unless it says false |
| TaskSerializer.Tokens | ganttproject/src/main/java/net/sourceforge/ganttproject/parser/TaskSerializer.kt:128 | the shape tokens are non-empty and hold no comma, and they are exactly the non-empty pieces between commas |
| TaskSerializer.NonEmpty | ganttproject/src/main/java/net/sourceforge/ganttproject/parser/TaskSerializer.kt:128 | `StringTokenizer` skips empty pieces: it keeps exactly the non-empty ones |
| TaskSerializer.NonEmptyAppend | ganttproject/src/main/java/net/sourceforge/ganttproject/parser/TaskSerializer.kt:128 | empty pieces are dropped piece by piece, so the order of the others is kept |
| TaskSerializer.NonEmptyKeepsAll | ganttproject/src/main/java/net/sourceforge/ganttproject/parser/TaskSerializer.kt:128 | pieces that are all non-empty are kept as they are |
| TaskSerializer.TokensJoin | ganttproject/src/main/java/net/sourceforge/ganttproject/parser/TaskSerializer.kt:128 | non-empty tokens without commas, joined with commas, tokenize back to themselves |
| TaskSerializer.FirstMisfit | ganttproject/src/main/java/net/sourceforge/ganttproject/parser/TaskSerializer.kt:132-136 | the first token that overflows the 16 slots or is not an integer, or none |
| TaskSerializer.Shape | ganttproject/src/main/java/net/sourceforge/ganttproject/parser/TaskSerializer.kt:127-138 | a shape loads exactly when it has at most 16 integer tokens; the array holds them followed by zeros |
| TaskSerializer.ShapeFailure | ganttproject/src/main/java/net/sourceforge/ganttproject/parser/TaskSerializer.kt:132-136 | the first bad token decides the error |
| TaskSerializer.ShapeSuccess | ganttproject/src/main/java/net/sourceforge/ganttproject/parser/TaskSerializer.kt:132-136 | when every token fits, the shape is the filled array |
| TaskSerializer.ReadShape | ganttproject/src/main/java/net/sourceforge/ganttproject/parser/TaskSerializer.kt:127-138 | the tokenizer loop computes `Shape` of the tokens |
| TaskSerializer.ShapeShortList | ganttproject/src/main/java/net/sourceforge/ganttproject/parser/TaskSerializer.kt:129-136 | up to 16 integers load as themselves, padded with zeros |
| TaskSerializer.ShapeTooManyTokens | ganttproject/src/main/java/net/sourceforge/ganttproject/parser/TaskSerializer.kt:134 | a seventeenth token fails (`ArrayIndexOutOfBoundsException`) |
| TaskSerializer.Record | ganttproject/src/main/java/net/sourceforge/ganttproject/parser/TaskSerializer.kt:151-165 | a dependency record takes the task id, the successor and the lag; a blank type means finish-start and strong, else the parsed type and hardness |
| TaskSerializer.Records | ganttproject/src/main/java/net/sourceforge/ganttproject/parser/TaskSerializer.kt:152-164 | one record per XML dependency, in order |
| TaskSerializer.DependenciesOf | ganttproject/src/main/java/net/sourceforge/ganttproject/parser/TaskSerializer.kt:151-165 | no dependencies element gives no records |
| TaskSerializer.Convert | ganttproject/src/main/java/net/sourceforge/ganttproject/parser/TaskSerializer.kt:167-187 | an unknown property or a null value is skipped; the conversion fails exactly when its exception escapes: an integer property whose text is no integer, or a date property whose text makes `DateParser.parse` throw NoSuchElementException; a date rejected with InvalidDateException is skipped; otherwise a text property stores the text, a boolean one `Boolean.valueOf` (case-blind "true"), an integer one the parsed int, a double one the text, a date one the parsed date, and any other type nothing |
| TaskSerializer.DateWithBareDotAborts | ganttproject/src/main/java/net/sourceforge/ganttproject/parser/TaskSerializer.kt:179-185 | a date custom value "y-mo-dTh:mi:sec." stops the load: only InvalidDateException is caught |
| TaskSerializer.CustomErrorOnlyUncaught | ganttproject/src/main/java/net/sourceforge/ganttproject/parser/TaskSerializer.kt:167-196 | loading custom values fails exactly when some property value's conversion throws an exception `loadCustomProperties` does not catch |
| TaskSerializer.ApplyCustomValues | ganttproject/src/main/java/net/sourceforge/ganttproject/parser/TaskSerializer.kt:167-196 | when no conversion fails, each key holds the value of the last property with that id that converted to a value, and every other key keeps its earlier value or stays absent |
| TaskSerializer.CustomKeysDefined | ganttproject/src/main/java/net/sourceforge/ganttproject/parser/TaskSerializer.kt:167-196 | every loaded custom value belongs to a defined property that the task mentions, or was there before |
| TaskSerializer.LoadCustomValues | ganttproject/src/main/java/net/sourceforge/ganttproject/parser/TaskSerializer.kt:167-196 | the loop over the task's custom properties computes `ApplyCustom` |
| TaskSerializer.ShapeOf | ganttproject/src/main/java/net/sourceforge/ganttproject/parser/TaskSerializer.kt:127-138 | no shape is fine; a shape either loads as `Shape` or fails with its error |
| TaskSerializer.Finish | ganttproject/src/main/java/net/sourceforge/ganttproject/parser/TaskSerializer.kt:139-147 | the rest of a task's load sets the cost and records its dependencies, failing exactly when a custom value's conversion throws an uncaught exception |
| TaskSerializer.AfterLink | ganttproject/src/main/java/net/sourceforge/ganttproject/parser/TaskSerializer.kt:127-147 | from the shape on: a bad shape leaves the task as it was with no dependencies; otherwise cost and dependencies are set and it fails exactly when a custom value's conversion throws uncaught |
| TaskSerializer.Linked | ganttproject/src/main/java/net/sourceforge/ganttproject/parser/TaskSerializer.kt:120-147 | from the web link on: a malformed link leaves the task as it was; otherwise the decoded link is set and the rest is `AfterLink` |
| TaskSerializer.Load | ganttproject/src/main/java/net/sourceforge/ganttproject/parser/TaskSerializer.kt:72-149 | the loaded task has the XML id, the parent and the duration; a malformed web link, then a bad shape, stops it before cost and dependencies; otherwise it fails exactly when a custom value's conversion throws uncaught |
| TaskSerializer.WebLinkOf | ganttproject/src/main/java/net/sourceforge/ganttproject/parser/TaskSerializer.kt:120-126 | no web link is fine; a link is the `URLDecoder` result, and a malformed escape fails with that text (only UnsupportedEncodingException is caught) |
| TaskSerializer.ReadShapeOf | ganttproject/src/main/java/net/sourceforge/ganttproject/parser/TaskSerializer.kt:127-138 | reads the optional shape as `ShapeOf` |
| TaskSerializer.TaskLoader.constructor | ganttproject/src/main/java/net/sourceforge/ganttproject/parser/TaskSerializer.kt:72 | the loader starts with no legacy tasks, no dependencies and no XML-to-task map |
| TaskSerializer.TaskLoader.LoadTask | ganttproject/src/main/java/net/sourceforge/ganttproject/parser/TaskSerializer.kt:72-149 | the task is registered and mapped before any attribute that may fail; legacy fixed-start tasks are remembered; the stored task, the dependency records and the result are the load's outcome, a malformed web link included |
| TaskSerializer.TaskLoader.LoadLinked | ganttproject/src/main/java/net/sourceforge/ganttproject/parser/TaskSerializer.kt:120-147 | the stored task, the dependency records and the result are those of `Linked` |
| TaskSerializer.TaskLoader.LoadShaped | ganttproject/src/main/java/net/sourceforge/ganttproject/parser/TaskSerializer.kt:127-147 | the stored task, the dependency records and the result are those of `AfterLink` |
| TaskSerializer.TaskLoader.BuildTask | ganttproject/src/main/java/net/sourceforge/ganttproject/parser/TaskSerializer.kt:72-119 | the builder part: the task with its attributes is stored and mapped |
| TaskSerializer.TaskLoader.FinishTask | ganttproject/src/main/java/net/sourceforge/ganttproject/parser/TaskSerializer.kt:127-147 | shape, cost, dependencies and custom values are applied as `Finish` says |
| TaskSerializer.TaskLoader.LoadCustomProperties | ganttproject/src/main/java/net/sourceforge/ganttproject/parser/TaskSerializer.kt:167-196 | custom values are stored on the task as `ApplyCustom` computes |
| TaskSerializer.TaskLoader.LoadDependencies | ganttproject/src/main/java/net/sourceforge/ganttproject/parser/TaskSerializer.kt:151-165 | the task's dependency records are appended |
| TaskSerializer.MissingParentIsNoParent | ganttproject/src/main/java/net/sourceforge/ganttproject/parser/TaskSerializer.kt:85-88 | a parent that was not loaded leaves the task without a parent |
| TaskSerializer.DependencyOf | ganttproject/src/main/java/net/sourceforge/ganttproject/parser/TaskSerializer.kt:212-219 | the dependant is the successor and the dependee the task; legacy fixed-start dependants get rubber hardness |
| TaskSerializer.Graph | ganttproject/src/main/java/net/sourceforge/ganttproject/parser/TaskSerializer.kt:207-224 | at most one dependency per record |
| TaskSerializer.GraphExactly | ganttproject/src/main/java/net/sourceforge/ganttproject/parser/TaskSerializer.kt:207-224 | a dependency is created exactly for each record whose tasks both exist and that the graph accepts |
| TaskSerializer.GraphEndsKnown | ganttproject/src/main/java/net/sourceforge/ganttproject/parser/TaskSerializer.kt:209-216 | every created dependency links existing tasks, and a legacy dependant's is rubber |
| TaskSerializer.LoadDependencyGraph | ganttproject/src/main/java/net/sourceforge/ganttproject/parser/TaskSerializer.kt:207-224 | the loop appends `Graph` of the records and changes no task |
| TaskSerializer.GraphAppend | ganttproject/src/main/java/net/sourceforge/ganttproject/parser/TaskSerializer.kt:207-224 | records are handled one at a time, independently, given a refusal that depends on the pair alone |
| TaskSerializer.GanttView | ganttproject/src/main/java/net/sourceforge/ganttproject/parser/TaskSerializer.kt:235 | the first view whose id is "gantt-chart", or none |
| TaskSerializer.Ids | ganttproject/src/main/java/net/sourceforge/ganttproject/parser/TaskSerializer.kt:239 | `mapNotNull { trim().toIntOrNull() }` keeps at most one id per piece |
| TaskSerializer.Known | ganttproject/src/main/java/net/sourceforge/ganttproject/parser/TaskSerializer.kt:240 | only ids of existing tasks are kept |
| TaskSerializer.TaskView.constructor | ganttproject/src/main/java/net/sourceforge/ganttproject/parser/TaskSerializer.kt:230 | the timeline starts empty |
| TaskSerializer.LoadTimeline | ganttproject/src/main/java/net/sourceforge/ganttproject/parser/TaskSerializer.kt:235-242 | without a Gantt view the timeline is unchanged; with one it is replaced by the listed existing tasks |
| TaskSerializer.AddExisting | ganttproject/src/main/java/net/sourceforge/ganttproject/parser/TaskSerializer.kt:239-241 | the known ids are appended in order |
| TaskSerializer.Printed | ganttproject/src/main/java/net/sourceforge/ganttproject/parser/TaskSerializer.kt:239 | one printed piece per id |
| TaskSerializer.TimelineRoundTrip | ganttproject/src/main/java/net/sourceforge/ganttproject/parser/TaskSerializer.kt:237-242 | a comma-joined list of existing task ids loads back as the same list |
| TaskSerializer.KnownAll | ganttproject/src/main/java/net/sourceforge/ganttproject/parser/TaskSerializer.kt:240 | ids of existing tasks are all kept |
| TaskSerializer.IdsPrinted | ganttproject/src/main/java/net/sourceforge/ganttproject/parser/TaskSerializer.kt:239 | printed ids parse back to themselves |
| Scheduler.MaxCut | ganttproject/src/main/java/net/sourceforge/ganttproject/task/algorithm/SchedulerImpl.java:118-123 | the later of two range bounds |
| Scheduler.MinCut | ganttproject/src/main/java/net/sourceforge/ganttproject/task/algorithm/SchedulerImpl.java:118-123 | the earlier of two range bounds |
| Scheduler.Closed | ganttproject/src/main/java/net/sourceforge/ganttproject/task/algorithm/SchedulerImpl.java:132-133 | `Range.closed(a, b)` holds exactly `a..b`, and fails when `a > b` |
| Scheduler.AtLeast | ganttproject/src/main/java/net/sourceforge/ganttproject/task/algorithm/SchedulerImpl.java:134 | `Range.atLeast(x)` holds exactly the dates from `x` on |
| Scheduler.AtMost | ganttproject/src/main/java/net/sourceforge/ganttproject/task/algorithm/SchedulerImpl.java:135 | `Range.atMost(x)` holds exactly the dates up to `x` |
| Scheduler.Intersect | ganttproject/src/main/java/net/sourceforge/ganttproject/task/algorithm/SchedulerImpl.java:118-123 | an intersection keeps the larger lower bound and the smaller upper bound, and fails only with IllegalArgument |
| Scheduler.IntersectContains | ganttproject/src/main/java/net/sourceforge/ganttproject/task/algorithm/SchedulerImpl.java:118-123 | a date is in an intersection exactly when it is in both ranges |
| Scheduler.IntersectDisconnected | ganttproject/src/main/java/net/sourceforge/ganttproject/task/algorithm/SchedulerImpl.java:118-123 | when the intersection fails no date is in both ranges |
| Scheduler.Span | ganttproject/src/main/java/net/sourceforge/ganttproject/task/algorithm/SchedulerImpl.java:134-135 | the span runs from the lower of the two lower bounds to the higher of the two upper bounds, and so encloses both ranges |
| Scheduler.SpanSmallest | ganttproject/src/main/java/net/sourceforge/ganttproject/task/algorithm/SchedulerImpl.java:134-135 | any range holding every date of two non-empty ranges holds every date of their span: the span is the smallest enclosing range |
| Scheduler.EncloseAll | ganttproject/src/main/java/net/sourceforge/ganttproject/task/algorithm/SchedulerImpl.java:132-133 | `encloseAll` holds exactly the dates between the smallest and largest subtask date |
| Scheduler.Absorb | ganttproject/src/main/java/net/sourceforge/ganttproject/task/algorithm/SchedulerImpl.java:110-129 | a strong edge only narrows start and end, a weak one only the weak ranges, a refreshed subtask edge only adds dates |
| Scheduler.CollectStrong | ganttproject/src/main/java/net/sourceforge/ganttproject/task/algorithm/SchedulerImpl.java:121-123 | the collected start (and end) range holds exactly the dates every refreshed strong edge allows |
| Scheduler.CollectIllegalState | ganttproject/src/main/java/net/sourceforge/ganttproject/task/algorithm/SchedulerImpl.java:114-116 | collection fails with IllegalState only when a subtask edge has no endpoints |
| Scheduler.Refreshed | ganttproject/src/main/java/net/sourceforge/ganttproject/task/algorithm/SchedulerImpl.java:111-113 | the edges that were refreshed |
| Scheduler.CollectIgnoresStale | ganttproject/src/main/java/net/sourceforge/ganttproject/task/algorithm/SchedulerImpl.java:111-113 | edges that were not refreshed have no effect |
| Scheduler.WithWeak | ganttproject/src/main/java/net/sourceforge/ganttproject/task/algorithm/SchedulerImpl.java:138-147 | without strong constraints the weak range is used, clipped to the subtask span when there is one |
| Scheduler.CombineFailure | ganttproject/src/main/java/net/sourceforge/ganttproject/task/algorithm/SchedulerImpl.java:138-147 | combining the ranges can only fail with IllegalArgument |
| Scheduler.CombineEarliestBegin | ganttproject/src/main/java/net/sourceforge/ganttproject/task/algorithm/SchedulerImpl.java:148-151 | with an earliest-begin constraint the start range begins no earlier than the third date |
| Scheduler.CombineSubtasks | ganttproject/src/main/java/net/sourceforge/ganttproject/task/algorithm/SchedulerImpl.java:152-155 | with subtasks both ranges lie within the subtasks' span |
| Scheduler.ModifyStart | ganttproject/src/main/java/net/sourceforge/ganttproject/task/algorithm/SchedulerImpl.java:200-219 | the task starts at the new date; an unchanged start changes nothing; a leaf keeps its length |
| Scheduler.ModifyEnd | ganttproject/src/main/java/net/sourceforge/ganttproject/task/algorithm/SchedulerImpl.java:187-198 | the task ends at the new date and keeps its start and constraint |
| Scheduler.EndDate | ganttproject/src/main/java/net/sourceforge/ganttproject/task/algorithm/SchedulerImpl.java:160-183 | the start of the holidays just before the range's upper bound is taken exactly when there is one and it lies after the task's start; otherwise the end is the upper bound |
| Scheduler.ScheduleEarliestBegin | ganttproject/src/main/java/net/sourceforge/ganttproject/task/algorithm/SchedulerImpl.java:148-159 | a scheduled task with an earliest-begin constraint starts no earlier than its third date |
| Scheduler.ScheduleIllegalState | ganttproject/src/main/java/net/sourceforge/ganttproject/task/algorithm/SchedulerImpl.java:114-116 | scheduling a task aborts with IllegalState only over a subtask edge without endpoints |
| Scheduler.ScheduleUnconstrained | ganttproject/src/main/java/net/sourceforge/ganttproject/task/algorithm/SchedulerImpl.java:99-185 | a task with no refreshed edges and no earliest-begin constraint is left as it is |
| Scheduler.StepNode | ganttproject/src/main/java/net/sourceforge/ganttproject/task/algorithm/SchedulerImpl.java:86-93 | one node keeps the set of tasks and adds at most its own task to the log |
| Scheduler.ScheduledStep | ganttproject/src/main/java/net/sourceforge/ganttproject/task/algorithm/SchedulerImpl.java:86-93 | what `schedule` leaves behind (rescheduled task, logged IllegalArgument, or IllegalState) is exactly one step of the walk |
| Scheduler.WalkNodes | ganttproject/src/main/java/net/sourceforge/ganttproject/task/algorithm/SchedulerImpl.java:84-95 | scheduling a layer never adds or removes tasks |
| Scheduler.WalkLayers | ganttproject/src/main/java/net/sourceforge/ganttproject/task/algorithm/SchedulerImpl.java:81-97 | walking all layers never adds or removes tasks |
| Scheduler.WalkNodesCompletes | ganttproject/src/main/java/net/sourceforge/ganttproject/task/algorithm/SchedulerImpl.java:84-95 | a layer without endpoint-less subtask edges never aborts the run |
| Scheduler.WalkNodesLogsOnlyNodes | ganttproject/src/main/java/net/sourceforge/ganttproject/task/algorithm/SchedulerImpl.java:88-93 | the log only grows, and only with tasks of the layer |
| Scheduler.WalkLayersAborted | ganttproject/src/main/java/net/sourceforge/ganttproject/task/algorithm/SchedulerImpl.java:81-97 | once aborted, the remaining layers change nothing |
| Scheduler.SchedulerImpl.constructor | ganttproject/src/main/java/net/sourceforge/ganttproject/task/algorithm/SchedulerImpl.java:63-79 | a scheduler starts enabled and not running, with the tasks and no log |
| Scheduler.SchedulerImpl.SetEnabled | ganttproject/src/main/java/net/sourceforge/ganttproject/task/algorithm/SchedulerImpl.java:63-66 | only the enabled flag changes |
| Scheduler.SchedulerImpl.Run | ganttproject/src/main/java/net/sourceforge/ganttproject/task/algorithm/SchedulerImpl.java:69-79 | a disabled or already running scheduler does nothing; otherwise the tasks and the log become the walk's, and the running flag is restored |
| Scheduler.SchedulerImpl.DoRun | ganttproject/src/main/java/net/sourceforge/ganttproject/task/algorithm/SchedulerImpl.java:81-97 | the loop over the layers computes `WalkLayers` |
| Scheduler.SchedulerImpl.WalkLayer | ganttproject/src/main/java/net/sourceforge/ganttproject/task/algorithm/SchedulerImpl.java:84-95 | the loop over a layer computes `WalkNodes`: IllegalArgument is logged, IllegalState aborts |
| Scheduler.SchedulerImpl.Step | ganttproject/src/main/java/net/sourceforge/ganttproject/task/algorithm/SchedulerImpl.java:86-93 | one node of a layer: the tasks, the log and the abort flag become `StepNode`'s |
| Scheduler.SchedulerImpl.Schedule | ganttproject/src/main/java/net/sourceforge/ganttproject/task/algorithm/SchedulerImpl.java:99-185 | one task is rescheduled as `ScheduleTask` says, or left as it is on failure |
| Scheduler.SchedulerImpl.ModifyTaskStart | ganttproject/src/main/java/net/sourceforge/ganttproject/task/algorithm/SchedulerImpl.java:200-219 | the task gets `ModifyStart` |
| Scheduler.SchedulerImpl.ModifyTaskEnd | ganttproject/src/main/java/net/sourceforge/ganttproject/task/algorithm/SchedulerImpl.java:187-198 | the task gets `ModifyEnd` |
| Scheduler.CollectEdges | ganttproject/src/main/java/net/sourceforge/ganttproject/task/algorithm/SchedulerImpl.java:110-129 | the loop over the incoming edges computes `Collect` |

## Left out

- `Calendar` and `Date` arithmetic is not modelled. A parsed date is the list of calendar fields `getCalendar` sets plus the time-zone offset in minutes. `GregorianCalendar` normalisation (a month of 13, a negative hour) and the conversion to a `Date` in `parse` are left out. The printers start from normalised fields.
- JavaText.ParseInt: accepts ASCII digits only. `Integer.parseInt`, Kotlin's `toInt` and `toIntOrNull` also accept the other Unicode decimal digits (through `Character.digit`); those are outside the model.
- JavaText.LowerCase: lowers the ASCII letters only and keeps the length; Kotlin's `lowercase()` maps every Unicode letter and can lengthen the text (U+0130 becomes two characters). Its two uses, the ".gan" suffix test and `Boolean.valueOf`'s case-blind comparison with "true", give the same answers as Java's Unicode case mapping, since no non-ASCII character maps to the letters involved.
- TaskSerializer.Ids: a timeline piece written with non-ASCII decimal digits, which `toIntOrNull` reads, is dropped (see `JavaText.ParseInt`).
- JavaText.IsWhitespace: the set of white-space characters is the one Unicode has had since version 6.3, which the Java 11 and later runtimes use. Java 8's Unicode 6.2 also counted U+180E as a space.
- `DateParser.ZoneAhead`: the offset is stated as the minutes that `calendar.add` adds. Which instant that denotes depends on the default time zone, which is left out.
- The outline-number comparator takes the tokens that `Scanner.useDelimiter("\\.")` produces, each an `int` or not. The scanner's own tokenisation and locale rules are left out.
- `TaskColumns.GetCustomPropertyClass`: the contract names the Integer, Double and Date cases and excludes Boolean. It does not separately name the Text fallback for every other column.
- `TaskDefaultColumn`'s iconified flag, value-class getter and sort-comparator setter are plain accessors. They are not modelled.
- JavaFX and Swing wiring is left out: nodes, styles, `runLater`, focus, dialogs, and the Swing menu wrappers' listeners and icons. The menus model which items go where, not how they look.
- `TaskResources.TaskResourcesPanel.RefreshTable`: the source writes the old index back through `selectionModel.select`, which ignores an index that no longer exists. The model states that outcome directly.
- The load typed into the assignment cell is parsed by `toString().toFloat()`. The parse is a function parameter, and floats are reals.
- `ResourceAssignmentsFx.ResourceAssignmentTableModelFx.Commit`: the mutator map is a `LinkedHashMap`, so mutators commit in the order their tasks first got one through `getOrPut`. The model keeps the mutators in a Dafny map and records the set of committed tasks, so it drops that insertion order.
- Watchers in `Observable` are identified by number, and a notification is a recorded delivery. What a watcher does when called is outside the model.
- `TaskSerializer` starts from the XML record after Jackson has parsed it. The following are kept symbolic: `parseXMLDate`, `ColorValueParser`, `Priority.fromPersistentValue`, `ConstraintType.fromPersistentValue`, `Hardness.parse` and `URLDecoder.decode`. Where they matter they are opaque functions of the text. The decoder returns no text where the source throws IllegalArgumentException, and that failure is modelled. The date custom property uses the modelled `DateParser.parse`.
- `Double.valueOf` failing on a double custom property is left out. Only the integer conversion and the date parser's NoSuchElementException are modelled as failing.
- `TaskManager`'s own bookkeeping during `build()` is reduced to storing the task under its id. This includes the tree-collapse view, whose state is the task's expanded flag.
- `CustomColumnsException` from `setValue` is treated as never thrown. Custom values are assumed to match their definitions.
- Whether `createDependency` refuses a pair (a `TaskDependencyException`) is an opaque function parameter. The dependency's constraint object is reduced to its type.
- TaskSerializer.GraphAppend: the refusal is a function of the pair alone. In the source it may also depend on the dependencies created earlier in the same loop (a loop check, for example), and then the records are not independent.
- `loadGanttView` is modelled only as far as the timeline. Its options, column list, zoom and filters are not part of this model.
- `loadTaskCustomPropertyDefinitions` is not part of this model. The definitions are given.
- `DependencyGraph` is an input to the scheduler. Its layering (`checkLayerValidity`, `getLayer`) and `edge.refresh()` arrive as ready layers and a refreshed flag on each edge.
- `Scheduler.EndDate`: the working-calendar search for the start of the holidays is one opaque function. It gives the day the holidays before a date start, if any.
- `Scheduler.ModifyStart`: a leaf task shifts by the raw date difference and keeps its raw length. The working-time length that `createLength` computes is left out.
- The value of `TaskImpl.EARLIESTBEGIN` is not part of this model. The constraint is a two-way datatype.
- Dates in the scheduler are integers. Time units and `Date` objects are left out.
- `getDiagnostic()`, `debug` and `error` logging in the scheduler are reduced to a list of the tasks whose scheduling failed with IllegalArgument.
- The `UIFacadeImpl` dialogs, look-and-feel, fonts, windows and progress reporting are left out. They touch no state the model follows.
- The stack trace in `getExceptionReport` is an input string.
- `LocalizedString` messages are their keys.
- `Document.DocumentUri.Subpath`: requires `start <= end <= nameCount`. Outside those bounds the source's `subList` throws IndexOutOfBoundsException or IllegalArgumentException, and the model does not describe that failure.
- `Document.DocumentUri.Name`: requires an index below the number of components. For any other index the source's `components[idx]` throws IndexOutOfBoundsException, and the model does not describe that failure.
- `Document.DocumentUri.FileName`: requires a non-empty path. On the root the source's `last()` throws NoSuchElementException, and the model does not describe that failure.
- `DocumentUri.equals`, `hashCode`, `toFile` and `createPath` use `java.nio.file` and value equality. Dafny's datatype equality stands in for them.

## Findings

| source | as written | input that shows it | evidently intended | confidence | as-written member | corrected member |
|---|---|---|---|---|---|---|
| biz.ganttproject.core/src/main/java/biz/ganttproject/core/model/task/TaskDefaultColumn.java:164-166 | the comparator takes the sign of `sc1.nextInt() - sc2.nextInt()`, and that `int` subtraction can wrap around | "-2147483648" against "0": the difference wraps to -2147483648, and the reverse comparison also gives -1, so each sorts before the other | compare the two integers without overflow (`Integer.compare`) | low, not executed; outline numbers are non-negative in practice, where the two agree | TaskColumns.CompareWrapsAround | TaskColumns.CompareOutlineOrder |
