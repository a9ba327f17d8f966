# wmi-explorer console walker, modelled in Dafny

This project models the console tool in `wmi-explorer.cs`. The tool walks the
WMI namespace tree depth first, starting at `root`. In every namespace it
connects, lists the classes and skips each class whose name contains any entry
of a fixed list of partial names. For each other class it prints a report
section:

- the header written by `PrintHeader`;
- `Properties:`;
- one `  <name>: <value>` line per property of every instance, with a blank line after each instance;
- an `  Error accessing instances: …` line if instance enumeration throws;
- a 40-character `-` rule, the `Lines printed` count and the timing line.

It then walks every sub-namespace at `<parent>\<name>`. A failure to connect or
to query is caught at the namespace where it happens. It prints as one
`Error in namespace '<path>': <message>` line.

The management provider is a value (`Provider.Namespace`): a tree of namespaces,
their classes, instances and properties, and the points at which a query
throws. The console is the returned `seq<string>`. The modules are:

- `Text`: substring search as `String.Contains` does it, decimal rendering, and the 32-bit wrap of a C# `int`.
- `Provider`: the input datatypes.
- `Exclusion`: the list of partial names and the filter `List.Exists(partial => className.Contains(partial))`.
- `Report`: one class's section. `Section` is the specification and `ReportClass` is the loop code with its `lines` counter.
- `Walker`: the recursive walk. `Walk` is the specification and `SearchNamespace` the method; the properties of the walk are lemmas about `Walk`.

The walk is stated for any list of partial names; `Walker.Run`, the entry
point, uses the tool's list.

## Model

| member | source | states |
|---|---|---|
| Text.Contains | wmi-explorer.cs:50 | `className.Contains(partial)` holds exactly when `partial` occurs as a contiguous, case-sensitive run somewhere in `className` (the empty string occurs everywhere) |
| Text.Wrap32 | wmi-explorer.cs:58 | the counter's value always lies in the `int` range, and a value already in range is unchanged |
| Text.WrapCongruent | wmi-explorer.cs:71 | the wrapped counter differs from the exact count by a multiple of 2^32, as repeated `lines++` on an `int` does |
| Text.WrapAdd | wmi-explorer.cs:58-71 | incrementing a wrapped counter and wrapping again equals wrapping the exact total, so the counter can be wrapped step by step |
| Text.ParseNatToString | wmi-explorer.cs:85 | the decimal text printed for a non-negative count reads back as that count |
| Text.IntToString | wmi-explorer.cs:85 | the printed count starts with a minus sign exactly when it is negative, and the rest is decimal digits |
| Text.ParseIntToString | wmi-explorer.cs:85 | the printed count, negative after wrap-around or not, reads back as the counter's value |
| Exclusion.AnyOccursMeaning | wmi-explorer.cs:50 | the filter holds for a class name exactly when at least one entry of the list occurs in it, in both directions |
| Exclusion.EntryOccurrenceExcludes | wmi-explorer.cs:30-54 | any single entry of the tool's list occurring in a class name is enough to exclude the class |
| Exclusion.OnlyShortEntriesCanMatch | wmi-explorer.cs:50 | entries longer than the class name can never match, so a name none of whose short entries occur in it is kept |
| Exclusion.SubsumedEntryRedundant | wmi-explorer.cs:30-50 | removing an entry that contains another entry of the list leaves every decision of the filter unchanged |
| Exclusion.DuplicateEntryIrrelevant | wmi-explorer.cs:43-44 | `ActionCheck` appears twice in the list, and removing the second copy changes no decision |
| Exclusion.PnPEntityExcludedByPartialMatch | wmi-explorer.cs:33-50 | `Win32_PnPEntity` is excluded because an entry (`PnP`) occurs inside it; no equal entry is needed |
| Exclusion.MatchingIsCaseSensitive | wmi-explorer.cs:44-50 | `PnP` and `Win32_PnPEntity` are excluded, but `pnp` is kept: matching is containment and is case-sensitive |
| Exclusion.ShortNameKept | wmi-explorer.cs:30-50 | every name of at most six characters with no `P`, `V`, `T` or `B` is kept by the tool's list |
| Exclusion.WidgetKept | wmi-explorer.cs:30-54 | a class named `Widget` passes the filter |
| Report.PrintProperties | wmi-explorer.cs:67-72 | the inner loop appends one `  <name>: <value>` line per property, in order, and advances the `int` counter by the number of properties with 32-bit wrap |
| Report.PrintInstances | wmi-explorer.cs:65-74 | the instance loop appends every instance's property lines followed by one blank line, and advances the counter by the total number of properties |
| Report.ReportClass | wmi-explorer.cs:56-86 | the code for one retained class prints exactly `Section`: header, `Properties:`, instance lines, at most one error line, the separator, the count of properties read and the timing line |
| Report.HeaderLayout | wmi-explorer.cs:103-111 | `PrintHeader` writes exactly six lines: three blank lines, a 40-character `=` rule, `Class: <title>` and another `=` rule |
| Report.SectionLayout | wmi-explorer.cs:59-86 | a section is its body plus ten lines: `PrintHeader`'s six lines (three blank lines, a 40-character `=` rule, `Class: <namespace>:<class>`, another `=` rule), `Properties:`, the body, a 40-character `-` rule, the count line `Lines printed for <class> : <n>` and the timing line `Time Taken for <class> : <ms> ms`, also when enumeration throws |
| Report.InstancesShape | wmi-explorer.cs:65-74 | fully read instances print one line per property plus exactly one blank line per instance |
| Report.InstanceBlockAt | wmi-explorer.cs:65-74 | the lines of instance `i` are contiguous and come between those of the earlier and the later instances: its property lines in order, then exactly one blank line |
| Report.CountMatchesPropertyLines | wmi-explorer.cs:58-85 | the printed count equals the number of property lines in the body, including those printed before a failure; while it fits in an `int`, the count line shows that number in decimal |
| Report.ErrorLineExactlyOnFailure | wmi-explorer.cs:62-86 | the body holds exactly one `Error accessing instances` line when enumeration throws and none otherwise; when it throws, that line comes last, right before the separator |
| Walker.ReportClasses | wmi-explorer.cs:25-87 | the class loop prints, in class order, nothing for each excluded class and the full section for each other class |
| Walker.SearchNamespace | wmi-explorer.cs:14-101 | the recursive method prints exactly the walk `Walk` of the namespace it is given, and the namespace paths it opens a scope for (as `\\.\<path>`) are exactly `Visited`, in order |
| Walker.SearchChildren | wmi-explorer.cs:89-95 | the sub-namespace loop prints, in order, the walk of each child at `<parent>\<child name>`, and opens scopes for the namespace paths of those walks in the same order |
| Walker.Run | wmi-explorer.cs:8-12 | the program prints the walk from `root` filtered by the tool's list of partial names; the first namespace path it opens a scope for is `root`, and every later one starts with `root\` |
| Walker.ClassOutputIffRetained | wmi-explorer.cs:49-54 | a class prints nothing exactly when the filter excludes it; otherwise it prints its full section |
| Walker.ExcludedClassNotQueried | wmi-explorer.cs:50-54 | an excluded class prints nothing whatever its instances and failures are, so its instances are never consulted |
| Walker.ClassFailureIsLocal | wmi-explorer.cs:62-79 | a class's lines are one contiguous stretch between those of the earlier and the later classes; replacing that class by any other class, failing or not, changes only that stretch |
| Walker.WalkAroundChild | wmi-explorer.cs:25-95 | depth first: all class sections come first, then the earlier children's walks, then child `i`'s whole walk, then the later children's walks and any query error |
| Walker.ChildFailureIsLocal | wmi-explorer.cs:89-99 | replacing child `i` by any namespace of the same name, failing or not, changes only child `i`'s stretch of the output; the parent's classes and the siblings print the same lines |
| Walker.UnreachableChildIsolated | wmi-explorer.cs:16-20 | a child that cannot be connected to contributes exactly one `Error in namespace '<parent>\<child>': <message>` line, and the siblings still print |
| Walker.ClassQueryFailureSkipsChildren | wmi-explorer.cs:97-99 | when the class query throws, the namespace prints the classes yielded before the failure and one `Error in namespace` line; its sub-namespaces and their query make no difference to the output |
| Walker.VisitedStayBelow | wmi-explorer.cs:93-94 | the namespace paths `SearchNamespace` opens a scope for (`Visited`) start with the namespace it is given, and every further path starts with that path followed by `\` |
| Walker.SingleRetainedClass | wmi-explorer.cs:25-95 | a leaf namespace with one retained class prints exactly that class's section |
| Walker.RetainedClassBelowRoot | wmi-explorer.cs:11 | from `root` with one leaf child holding one retained class, the output is that class's section under the path `root\<child>` |
| Walker.WidgetScenario | wmi-explorer.cs:59-85 | `root\TestNS` with class `Widget` (properties `Name` = `foo` and `Size` = `10`) prints `Class: root\TestNS:Widget`, both property lines and `Lines printed for Widget : 2` |
| Walker.PnPEntityNeverReported | wmi-explorer.cs:33-54 | a namespace whose only class is `Win32_PnPEntity` prints nothing, whatever its instances |

## Left out

- The GUI program `wmi-explorer-gui.cs` is not part of this model. It is WinForms wiring with single-level queries and no filter.
- The System.Management calls (`ManagementScope.Connect`, the WQL searchers, `GetInstances`, `Properties`) are not modelled. Their results and exceptions are the input value `Provider.Namespace`. Each query is taken to yield its items and then possibly throw once.
- Timing: the `Stopwatch` reading and `TotalMilliseconds` are wall-clock and floating point. Each class carries its elapsed time as already-rendered text. The timing line prints it, and nothing is proved about its value.
- Value rendering: `property.Value` is taken as already-rendered text, so null and .NET `ToString` formats are not modelled. In the code a null value interpolates as empty text, not as a "not available" marker; the model follows the code by leaving rendering to the input.
- A class whose `__CLASS` is null makes `ToString()` throw at line 27. This is modelled only as a class-query failure of the namespace (`classQueryError`).
- Number formatting: the count is rendered in decimal with `-` as the negative sign. `Int32.ToString()` takes its negative sign from the current culture (`NumberFormatInfo.NegativeSign`). That only shows on a count that has wrapped below zero, and a culture whose sign is not `-` is not modelled.
- The exclusion list is rebuilt for every class in the code. The model uses one constant list, which holds the same entries in the same order.
- Console output is the returned sequence of lines. Interleaving with other writers and I/O failures of the console are not modelled.
- Each element of the output is the text of one `Console.WriteLine` call. A newline inside a property value, class name or exception message is not split into separate console lines. The layout, count and error-line properties therefore hold per `WriteLine` call, not per physical console line.
- Report.ErrorLineExactlyOnFailure: assumes property names hold no spaces (`PlainPropertyNames`). A property named `Error accessing instances` would print a line that cannot be told apart from the error line.
