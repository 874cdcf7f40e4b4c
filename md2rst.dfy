/**
 * The README generator of the examples repository: it reads an example's
 * description.json and writes README.rst through a file object. The file
 * object is the Target class below, whose only operation appends text; every
 * section writer is a method on it, proved to append exactly the text a
 * specification function describes, and the properties of the generated
 * text are lemmas about those functions.
 *
 * The JSON description is the Description datatype: a key that may be
 * absent is an Option. The reference data loaded from reference.json and
 * platform_ref.json is a map from section to a map from item to text; when
 * LICENSE.txt is not found the script keeps the empty string "", on which
 * every `key in ref` test is false, so it is the empty map here.
 */
module Md2Rst {
  import opened Wrappers
  import opened Text

  /** perf_fields and the rows of performance. */
  datatype Perf = Perf(fields: seq<string>, rows: seq<seq<string>>)

  /** The first entry of launch, with its optional cmd_args. */
  datatype Launch = Launch(cmdArgs: Option<string>)

  datatype Description = Description(
    name: string,
    description: seq<string>,
    moreInfo: Option<seq<string>>,
    perf: Option<Perf>,
    keyConcepts: Option<seq<string>>,
    keywords: Option<seq<string>>,
    platformBlacklist: Option<seq<string>>,
    runtime: seq<string>,
    matchReadme: Option<string>,
    hostExe: string,
    launch: Option<Launch>)

  type RefData = map<string, map<string, string>>

  /** The exceptions the script can end with. */
  datatype PyError = AssertionError | TypeError | NameError

  /** What a run leaves behind: the README text, if the file was opened, and the exception, if one ended the run. */
  datatype Outcome = Outcome(readme: Option<string>, error: Option<PyError>)

  /** The output file: all it does is append. */
  class Target {
    var text: string

    constructor ()
      ensures text == ""
    {
      text := "";
    }

    method Write(s: string)
      modifies this
      ensures text == old(text) + s
    {
      text := text + s;
    }
  }

  // The fixed text of the sections. Consecutive writes of fixed text are
  // one write of their concatenation here, which appends the same.

  const PerfHeading: string := "PERFORMANCE\n" + Repeat("-", |"PERFORMANCE"|) + "\n\n"
  const ConceptsHeading: string := "**KEY CONCEPTS:** "
  const KeywordsHeading: string := "**KEYWORDS:** "
  const ExcludedHeading: string := "**EXCLUDED PLATFORMS:** " + "\n\n"
  const DesignFilesHeading: string :=
    "DESIGN FILES\n" + Repeat("-", |"DESIGN FILES"|) + "\n\n"
    + "Application code is located in the src directory. "
    + "Accelerator binary files will be compiled to the xclbin directory. "
    + "The xclbin directory is required by the Makefile and its contents will be filled during compilation. A listing of all the files "
    + "in this example is shown below\n\n"
    + "::\n\n"
  const RepoLinkStart: string := "Access these files in the github repo by `clicking here <https://github.com/Xilinx/Vitis_Accel_Examples/tree/master/"
  const RepoLinkEnd: string := ">`__.\n\n"
  const CommandHeading: string :=
    "COMMAND LINE ARGUMENTS\n" + Repeat("-", |"COMMAND LINE ARGUMENTS"|) + "\n\n"
    + "Once the environment has been configured, the application can be executed by\n\n"
    + "::\n\n"
    + "   "

  // ---------------------------------------------------------------- title

  /** The example's name with the four kernel-flavour tags removed, in this order. */
  function Title(name: string): string
  {
    ReplaceAll(ReplaceAll(ReplaceAll(ReplaceAll(name, "(C)", ""), "(CL)", ""), "(RTL)", ""), "(HLS C/C++ Kernel)", "")
  }

  function TitleBlock(name: string): string
  {
    Title(name) + "\n" + Repeat("=", |Title(name)|) + "\n\n"
  }

  /** Removing the tags never makes the title longer than the name. */
  lemma TitleNoLonger(name: string)
    ensures |Title(name)| <= |name|
  {
    var t1 := ReplaceAll(name, "(C)", "");
    var t2 := ReplaceAll(t1, "(CL)", "");
    var t3 := ReplaceAll(t2, "(RTL)", "");
    DeleteShortens(name, "(C)");
    DeleteShortens(t1, "(CL)");
    DeleteShortens(t2, "(RTL)");
    DeleteShortens(t3, "(HLS C/C++ Kernel)");
  }

  /** A name without an opening parenthesis is its own title. */
  lemma TitleKeepsUntagged(name: string)
    requires '(' !in name
    ensures Title(name) == name
  {
    ReplaceAbsent(name, "(C)", "");
    ReplaceAbsent(name, "(CL)", "");
    ReplaceAbsent(name, "(RTL)", "");
    ReplaceAbsent(name, "(HLS C/C++ Kernel)", "");
  }

  /** Writes the title and an underline of "=" exactly as long as it. */
  method WriteTitle(target: Target, name: string)
    modifies target
    ensures target.text == old(target.text) + TitleBlock(name)
  {
    var title := name;
    title := ReplaceAll(title, "(C)", "");
    title := ReplaceAll(title, "(CL)", "");
    title := ReplaceAll(title, "(RTL)", "");
    title := ReplaceAll(title, "(HLS C/C++ Kernel)", "");
    target.Write(title);
    target.Write("\n");
    target.Write(Repeat("=", |title|));
    target.Write("\n\n");
  }

  // ---------------------------------------------------- performance table

  /** The script indexes perf_fields[ctr - 1] and the first ctr cells of every row. */
  predicate PerfIndexable(p: Perf)
  {
    |p.fields| >= 1 && forall r :: 0 <= r < |p.rows| ==> |p.rows[r]| >= |p.fields|
  }

  predicate Indexable(d: Description)
  {
    d.perf.Some? ==> PerfIndexable(d.perf.value)
  }

  /** The "|"-separated line of one row: its first ctr cells, extra cells ignored. */
  function RowLines(p: Perf): seq<string>
    requires PerfIndexable(p)
  {
    seq(|p.rows|, r requires 0 <= r < |p.rows| => Join(p.rows[r][..|p.fields|], "|"))
  }

  /** The rule under the header: one "-----" per column, "|" between them. */
  function Rule(columns: nat): string
    requires columns >= 1
  {
    Repeat("-----|", columns - 1) + "-----"
  }

  function PerfBlock(p: Perf): string
    requires PerfIndexable(p)
  {
    PerfHeading
    + Join(p.fields, "|") + "\n"
    + Rule(|p.fields|) + "\n"
    + Terminated(RowLines(p), "\n")
  }

  lemma {:induction false} RuleIsJoin(columns: nat)
    requires columns >= 1
    ensures Rule(columns) == Join(seq(columns, _ => "-----"), "|")
  {
    if columns > 1 {
      RuleIsJoin(columns - 1);
      var dashes := seq(columns - 1, _ => "-----");
      assert seq(columns, _ => "-----") == dashes + ["-----"];
      JoinSnoc(dashes, "-----", "|");
    }
  }

  /**
   * Every line of the table has ctr columns: read back on "|", the header
   * gives the fields, the rule ctr dashes and each row its first ctr cells,
   * provided no cell holds a "|" of its own.
   */
  lemma PerfColumns(p: Perf)
    requires PerfIndexable(p)
    requires forall k :: 0 <= k < |p.fields| ==> '|' !in p.fields[k]
    requires forall r, k :: 0 <= r < |p.rows| && 0 <= k < |p.fields| ==> '|' !in p.rows[r][k]
    ensures Split(Join(p.fields, "|"), "|") == p.fields
    ensures |Split(Rule(|p.fields|), "|")| == |p.fields|
    ensures forall r :: 0 <= r < |p.rows| ==> Split(RowLines(p)[r], "|") == p.rows[r][..|p.fields|]
  {
    SplitJoin(p.fields, "|");
    RuleIsJoin(|p.fields|);
    SplitJoin(seq(|p.fields|, _ => "-----"), "|");
    forall r | 0 <= r < |p.rows|
      ensures Split(RowLines(p)[r], "|") == p.rows[r][..|p.fields|]
    {
      SplitJoin(p.rows[r][..|p.fields|], "|");
    }
  }

  /** Writes cells[0..ctr) with "|" after all but the last. */
  method WriteCells(target: Target, cells: seq<string>, ctr: nat)
    requires 1 <= ctr <= |cells|
    modifies target
    ensures target.text == old(target.text) + Join(cells[..ctr], "|")
  {
    var idx := 0;
    while idx < ctr - 1
      invariant 0 <= idx <= ctr - 1
      invariant target.text == old(target.text) + Terminated(cells[..idx], "|")
    {
      assert cells[..idx + 1][..idx] == cells[..idx];
      target.Write(cells[idx]);
      target.Write("|");
      idx := idx + 1;
    }
    target.Write(cells[ctr - 1]);
    JoinAsTerminated(cells[..ctr], "|");
    assert cells[..ctr][..ctr - 1] == cells[..ctr - 1];
  }

  /** The rule: "-----|" for every column but the last, then "-----" and the line end. */
  method WriteRule(target: Target, ctr: nat)
    requires ctr >= 1
    modifies target
    ensures target.text == old(target.text) + Rule(ctr) + "\n"
  {
    var idx := 0;
    while idx < ctr - 1
      invariant 0 <= idx <= ctr - 1
      invariant target.text == old(target.text) + Repeat("-----|", idx)
    {
      target.Write("-----|");
      idx := idx + 1;
    }
    target.Write("-----\n");
    assert "-----\n" == "-----" + "\n";
  }

  /** Each row: its first ctr cells and the line end. */
  method WriteRows(target: Target, p: Perf)
    requires PerfIndexable(p)
    modifies target
    ensures target.text == old(target.text) + Terminated(RowLines(p), "\n")
  {
    ghost var lines := RowLines(p);
    var ctr := |p.fields|;
    var result := 0;
    while result < |p.rows|
      invariant 0 <= result <= |p.rows|
      invariant target.text == old(target.text) + Terminated(lines[..result], "\n")
    {
      assert lines[..result + 1][..result] == lines[..result];
      WriteCells(target, p.rows[result], ctr);
      target.Write("\n");
      result := result + 1;
    }
    assert lines[..|p.rows|] == lines;
  }

  method WritePerf(target: Target, p: Perf)
    requires PerfIndexable(p)
    modifies target
    ensures target.text == old(target.text) + PerfBlock(p)
  {
    target.Write(PerfHeading);
    var ctr := |p.fields|;
    WriteCells(target, p.fields, ctr);
    assert p.fields[..ctr] == p.fields;
    target.Write("\n");
    WriteRule(target, ctr);
    WriteRows(target, p);
  }

  // ------------------------------------------------ key concepts, keywords

  /** One item: linked when the section maps it, plain when it does not, nothing when the section is absent. */
  function RenderItem(item: string, section: string, ref: RefData): string
  {
    if section in ref then
      if item in ref[section] then "`" + item + " <" + ref[section][item] + ">`__" else item
    else ""
  }

  function Rendered(items: seq<string>, section: string, ref: RefData): seq<string>
  {
    seq(|items|, i requires 0 <= i < |items| => RenderItem(items[i], section, ref))
  }

  /** What separates the items of a keyword or key-concept list. */
  const ItemSeparator: string := ", "

  /** The heading, the items separated by ", " with none after the last, and a blank line. */
  function ListBlock(heading: string, items: seq<string>, section: string, ref: RefData): string
  {
    heading + Join(Rendered(items, section, ref), ItemSeparator) + "\n\n"
  }

  /** Without the section in the reference data only the separators are written, whatever the separator. */
  lemma MissingSectionKeepsSeparators(items: seq<string>, section: string, ref: RefData, sep: string)
    requires section !in ref && |items| >= 1
    ensures Join(Rendered(items, section, ref), sep) == Repeat(sep, |items| - 1)
  {
    RenderedEmpty(items, section, ref);
    JoinEmpties(Rendered(items, section, ref), sep);
  }

  lemma RenderedEmpty(items: seq<string>, section: string, ref: RefData)
    requires section !in ref
    ensures |Rendered(items, section, ref)| == |items|
    ensures forall k :: 0 <= k < |items| ==> Rendered(items, section, ref)[k] == ""
  {
  }

  /** With the section present and no comma in any rendered item, reading the list back on ", " gives one piece per item. */
  lemma ItemsReadBack(items: seq<string>, section: string, ref: RefData)
    requires |items| >= 1
    requires forall i :: 0 <= i < |items| ==> ',' !in RenderItem(items[i], section, ref)
    ensures Split(Join(Rendered(items, section, ref), ItemSeparator), ItemSeparator) == Rendered(items, section, ref)
  {
    SplitJoin(Rendered(items, section, ref), ItemSeparator);
  }

  /** One item, as the loop body writes it. */
  method WriteItem(target: Target, item: string, section: string, ref: RefData)
    modifies target
    ensures target.text == old(target.text) + RenderItem(item, section, ref)
  {
    if section in ref {
      if item in ref[section] {
        target.Write("`");
        target.Write(item);
        target.Write(" <");
        target.Write(ref[section][item]);
        target.Write(">`__");
        Append5(old(target.text), "`", item, " <", ref[section][item], ">`__");
      } else {
        target.Write(item);
      }
    }
  }

  /** What the item loop has written after its first n items: a ", " follows each item that is not the last. */
  ghost function ItemsWritten(parts: seq<string>, n: nat): string
    requires n <= |parts|
  {
    if n == 0 then "" else Join(parts[..n], ItemSeparator) + (if n < |parts| then ItemSeparator else "")
  }

  lemma ItemsWrittenStep(parts: seq<string>, n: nat)
    requires n < |parts|
    ensures ItemsWritten(parts, n + 1) == ItemsWritten(parts, n) + parts[n] + (if n + 1 < |parts| then ItemSeparator else "")
  {
    if n == 0 {
      assert parts[..1] == [parts[0]];
    } else {
      assert parts[..n + 1] == parts[..n] + [parts[n]];
      JoinSnoc(parts[..n], parts[n], ItemSeparator);
    }
  }

  /** The loop with the decrementing counter: ", " follows an item exactly when items remain. */
  method WriteItems(target: Target, heading: string, items: seq<string>, section: string, ref: RefData)
    modifies target
    ensures target.text == old(target.text) + ListBlock(heading, items, section, ref)
  {
    target.Write(heading);
    ghost var start := target.text;
    ghost var parts := Rendered(items, section, ref);
    var count := |items|;
    var idx := 0;
    while idx < |items|
      invariant 0 <= idx <= |items| && count == |items| - idx
      invariant target.text == start + ItemsWritten(parts, idx)
    {
      ghost var before := ItemsWritten(parts, idx);
      count := count - 1;
      WriteItem(target, items[idx], section, ref);
      ghost var sep := "";
      if count != 0 {
        target.Write(ItemSeparator);
        sep := ItemSeparator;
      }
      ItemsWrittenStep(parts, idx);
      Append3(start, before, parts[idx], sep);
      idx := idx + 1;
    }
    if |items| == 0 {
      assert parts == [];
    } else {
      assert parts[..|items|] == parts;
    }
    assert ItemsWritten(parts, |items|) == Join(parts, ItemSeparator);
    target.Write("\n\n");
    Append3(old(target.text), heading, Join(parts, ItemSeparator), "\n\n");
  }

  // --------------------------------------------------------------- details

  /** details.rst from its third line on; None when the file is not there. */
  function DetailsText(details: Option<seq<string>>): string
  {
    if details.None? || |details.value| <= 2 then "" else Concat(details.value[2..])
  }

  /** The skipped lines are exactly the first two: what is written completes them to the whole file. */
  lemma DetailsDropFirstTwo(lines: seq<string>)
    requires |lines| >= 2
    ensures Concat(lines[..2]) + DetailsText(Some(lines)) == Concat(lines)
  {
    assert lines == lines[..2] + lines[2..];
    ConcatAppend(lines[..2], lines[2..]);
    if |lines| == 2 {
      assert lines[2..] == [];
    }
  }

  method WriteDetails(target: Target, lines: seq<string>)
    modifies target
    ensures target.text == old(target.text) + DetailsText(Some(lines))
  {
    var i := 0;
    while i < |lines|
      invariant 0 <= i <= |lines|
      invariant target.text == old(target.text) + DetailsText(Some(lines[..i]))
    {
      DetailsTextSnoc(lines, i);
      if 2 <= i {
        target.Write(lines[i]);
        Append2(old(target.text), DetailsText(Some(lines[..i])), lines[i]);
      }
      i := i + 1;
    }
    assert lines[..i] == lines;
  }

  /** Reading one more line of details.rst writes it when it is the third or a later one. */
  lemma DetailsTextSnoc(lines: seq<string>, i: nat)
    requires i < |lines|
    ensures DetailsText(Some(lines[..i + 1])) == DetailsText(Some(lines[..i])) + (if 2 <= i then lines[i] else "")
  {
    var read, more := lines[..i], lines[..i + 1];
    if i == 2 {
      assert more[2..] == [lines[2]];
      assert [lines[2]][..0] == [];
      assert Concat([lines[2]]) == Concat([]) + lines[2];
      assert "" + lines[2] == lines[2];
    } else if i > 2 {
      assert more[2..] == read[2..] + [lines[i]];
      ConcatSnoc(read[2..], lines[i]);
    }
  }

  // -------------------------------------------------------------- overview

  /** Lines joined by newlines, then a blank line: how description and more_info are written. */
  function Paragraph(lines: seq<string>): string
  {
    Join(lines, "\n") + "\n\n"
  }

  function MoreInfoSection(d: Description): string
  {
    if d.moreInfo.Some? then Paragraph(d.moreInfo.value) else ""
  }

  function PerfSection(d: Description): string
    requires Indexable(d)
  {
    if d.perf.Some? then PerfBlock(d.perf.value) else ""
  }

  function ListSection(heading: string, items: Option<seq<string>>, section: string, ref: RefData): string
  {
    if items.Some? then ListBlock(heading, items.value, section, ref) else ""
  }

  /** The title, the description and the optional more_info and performance table. */
  function OverviewHead(d: Description): string
    requires Indexable(d)
  {
    TitleBlock(d.name) + Paragraph(d.description) + MoreInfoSection(d) + PerfSection(d)
  }

  /** The optional key concepts and keywords, details.rst from its third line, and a final newline. */
  function OverviewTail(d: Description, ref: RefData, details: Option<seq<string>>): string
  {
    ListSection(ConceptsHeading, d.keyConcepts, "key_concepts", ref)
    + ListSection(KeywordsHeading, d.keywords, "keywords", ref)
    + DetailsText(details)
    + "\n"
  }

  function Overview(d: Description, ref: RefData, details: Option<seq<string>>): string
    requires Indexable(d)
  {
    OverviewHead(d) + OverviewTail(d, ref, details)
  }

  /** The overview opens with the cleaned title underlined by "=" of the same length, and ends with a newline. */
  lemma OverviewShape(d: Description, ref: RefData, details: Option<seq<string>>)
    requires Indexable(d)
    ensures var t := Title(d.name);
      Overview(d, ref, details)[..|t| + 1] == t + "\n"
      && Overview(d, ref, details)[|t| + 1..2 * |t| + 1] == Repeat("=", |t|)
      && (forall i :: |t| + 1 <= i < 2 * |t| + 1 ==> Overview(d, ref, details)[i] == '=')
      && Overview(d, ref, details)[|Overview(d, ref, details)| - 1] == '\n'
  {
    var t := Title(d.name);
    var o := Overview(d, ref, details);
    var rest := o[|TitleBlock(d.name)|..];
    assert o == t + "\n" + Repeat("=", |t|) + "\n\n" + rest;
    RepeatAll("=", |t|);
  }

  lemma {:induction false} RepeatAll(c: string, n: nat)
    requires |c| == 1
    ensures forall i :: 0 <= i < n ==> Repeat(c, n)[i] == c[0]
  {
    if n > 0 {
      RepeatAll(c, n - 1);
    }
  }

  method WriteParagraph(target: Target, lines: seq<string>)
    modifies target
    ensures target.text == old(target.text) + Paragraph(lines)
  {
    target.Write(Join(lines, "\n"));
    target.Write("\n\n");
  }

  /** Each section in turn; the ghost text after each is the overview so far. */
  method WriteOverviewHead(target: Target, d: Description)
    requires Indexable(d)
    modifies target
    ensures target.text == old(target.text) + OverviewHead(d)
  {
    ghost var t0 := target.text;
    WriteTitle(target, d.name);
    WriteParagraph(target, d.description);
    ghost var sofar := TitleBlock(d.name) + Paragraph(d.description);
    Append2(t0, TitleBlock(d.name), Paragraph(d.description));

    ghost var section := MoreInfoSection(d);
    if d.moreInfo.Some? {
      WriteParagraph(target, d.moreInfo.value);
    } else {
      assert target.text + section == target.text;
    }
    Append2(t0, sofar, section);
    sofar := sofar + section;

    section := PerfSection(d);
    if d.perf.Some? {
      WritePerf(target, d.perf.value);
    } else {
      assert target.text + section == target.text;
    }
    Append2(t0, sofar, section);
  }

  method WriteOverviewTail(target: Target, d: Description, ref: RefData, details: Option<seq<string>>)
    modifies target
    ensures target.text == old(target.text) + OverviewTail(d, ref, details)
  {
    ghost var t0 := target.text;
    ghost var sofar := ListSection(ConceptsHeading, d.keyConcepts, "key_concepts", ref);
    if d.keyConcepts.Some? {
      WriteItems(target, ConceptsHeading, d.keyConcepts.value, "key_concepts", ref);
    } else {
      assert target.text + sofar == target.text;
    }

    ghost var section := ListSection(KeywordsHeading, d.keywords, "keywords", ref);
    if d.keywords.Some? {
      WriteItems(target, KeywordsHeading, d.keywords.value, "keywords", ref);
    } else {
      assert target.text + section == target.text;
    }
    Append2(t0, sofar, section);
    sofar := sofar + section;

    section := DetailsText(details);
    if details.Some? {
      WriteDetails(target, details.value);
    } else {
      assert target.text + section == target.text;
    }
    Append2(t0, sofar, section);
    sofar := sofar + section;

    target.Write("\n");
    Append2(t0, sofar, "\n");
  }

  method WriteOverview(target: Target, d: Description, ref: RefData, details: Option<seq<string>>)
    requires Indexable(d)
    modifies target
    ensures target.text == old(target.text) + Overview(d, ref, details)
  {
    ghost var t0 := target.text;
    WriteOverviewHead(target, d);
    WriteOverviewTail(target, d, ref, details);
    Append2(t0, OverviewHead(d), OverviewTail(d, ref, details));
  }

  // ---------------------------------------------------------- requirements

  function PlatformName(item: string, plt: RefData): string
    requires "platform_blacklist" in plt
  {
    if item in plt["platform_blacklist"] then plt["platform_blacklist"][item] else item
  }

  /** One " - " line per excluded platform, listed only when the platform reference has the section. */
  function BlacklistLines(items: seq<string>, plt: RefData): seq<string>
  {
    if "platform_blacklist" in plt
    then seq(|items|, i requires 0 <= i < |items| => " - " + PlatformName(items[i], plt))
    else []
  }

  function Requirements(d: Description, plt: RefData): string
  {
    if d.platformBlacklist.Some? then
      ExcludedHeading + Terminated(BlacklistLines(d.platformBlacklist.value, plt), "\n") + "\n"
    else ""
  }

  /** Read back line by line, the blacklist block holds one line per excluded platform, then nothing. */
  lemma BlacklistOneLineEach(items: seq<string>, plt: RefData)
    requires "platform_blacklist" in plt
    requires forall i :: 0 <= i < |items| ==> '\n' !in PlatformName(items[i], plt)
    ensures Split(Terminated(BlacklistLines(items, plt), "\n"), "\n") == BlacklistLines(items, plt) + [""]
    ensures |BlacklistLines(items, plt)| == |items|
  {
    var lines := BlacklistLines(items, plt);
    TerminatedIsJoin(lines, "\n");
    forall k | 0 <= k < |lines + [""]|
      ensures '\n' !in (lines + [""])[k]
    {
      if k < |lines| {
        assert (lines + [""])[k] == " - " + PlatformName(items[k], plt);
      }
    }
    SplitJoin(lines + [""], "\n");
  }

  /** One " - " line per excluded platform, written only when the platform reference has the section. */
  method WriteBlacklist(target: Target, items: seq<string>, plt: RefData)
    modifies target
    ensures target.text == old(target.text) + Terminated(BlacklistLines(items, plt), "\n")
  {
    ghost var lines := BlacklistLines(items, plt);
    var idx := 0;
    while idx < |items|
      invariant 0 <= idx <= |items|
      invariant "platform_blacklist" in plt ==> target.text == old(target.text) + Terminated(lines[..idx], "\n")
      invariant "platform_blacklist" !in plt ==> target.text == old(target.text)
    {
      var result := items[idx];
      if "platform_blacklist" in plt {
        ghost var before := target.text;
        target.Write(" - ");
        if result in plt["platform_blacklist"] {
          target.Write(plt["platform_blacklist"][result]);
        } else {
          target.Write(result);
        }
        assert target.text == before + lines[idx];
        target.Write("\n");
        assert lines[..idx + 1] == lines[..idx] + [lines[idx]];
        TerminatedSnoc(lines[..idx], lines[idx], "\n");
        Append3(old(target.text), Terminated(lines[..idx], "\n"), lines[idx], "\n");
      }
      idx := idx + 1;
    }
    if "platform_blacklist" in plt {
      assert lines[..|items|] == lines;
    } else {
      assert old(target.text) + Terminated(lines, "\n") == old(target.text);
    }
  }

  method WriteRequirements(target: Target, d: Description, plt: RefData)
    modifies target
    ensures target.text == old(target.text) + Requirements(d, plt)
  {
    if d.platformBlacklist.Some? {
      target.Write(ExcludedHeading);
      WriteBlacklist(target, d.platformBlacklist.value, plt);
      target.Write("\n");
    }
  }

  // ------------------------------------------------------------- hierarchy

  /** The repository path of the example: the starting directory relative to the one that holds LICENSE.txt. */
  function RefPath(initDir: string, curDir: string): string
  {
    ReplaceAll(initDir, curDir + "/", "")
  }

  /** The link to the example's directory in the public repository. */
  function RepoLink(refpath: string): string
  {
    RepoLinkStart + refpath + RepoLinkEnd
  }

  function Indented(listing: seq<string>): seq<string>
  {
    seq(|listing|, i requires 0 <= i < |listing| => "   " + listing[i])
  }

  function Hierarchy(listing: seq<string>, initDir: string, curDir: string): string
  {
    DesignFilesHeading
    + Terminated(Indented(listing), "\n")
    + RepoLink(RefPath(initDir, curDir))
  }

  /** The file listing appears line by line, each line indented by three spaces. */
  lemma ListingOneLineEach(listing: seq<string>)
    requires forall i :: 0 <= i < |listing| ==> '\n' !in listing[i]
    ensures Split(Terminated(Indented(listing), "\n"), "\n") == Indented(listing) + [""]
  {
    var lines := Indented(listing);
    TerminatedIsJoin(lines, "\n");
    forall k | 0 <= k < |lines + [""]|
      ensures '\n' !in (lines + [""])[k]
    {
      if k < |lines| {
        assert (lines + [""])[k] == "   " + listing[k];
      }
    }
    SplitJoin(lines + [""], "\n");
  }

  /** Below the repository root the path is what follows it. */
  lemma RefPathBelowRoot(curDir: string, rel: string)
    requires |curDir| >= 1 && curDir[0] !in rel
    ensures RefPath(curDir + "/" + rel, curDir) == rel
  {
    var pat := curDir + "/";
    var s := pat + rel;
    assert s[..|pat|] == pat && s[|pat|..] == rel;
    ReplaceAbsent(rel, pat, "");
  }

  /** Each line of the listing, indented by three spaces. */
  method WriteListing(target: Target, listing: seq<string>)
    modifies target
    ensures target.text == old(target.text) + Terminated(Indented(listing), "\n")
  {
    ghost var lines := Indented(listing);
    var idx := 0;
    while idx < |listing|
      invariant 0 <= idx <= |listing|
      invariant target.text == old(target.text) + Terminated(lines[..idx], "\n")
    {
      assert lines[..idx + 1][..idx] == lines[..idx];
      target.Write("   ");
      target.Write(listing[idx]);
      target.Write("\n");
      idx := idx + 1;
    }
    assert lines[..|listing|] == lines;
  }

  method WriteHierarchy(target: Target, listing: seq<string>, initDir: string, curDir: string)
    modifies target
    ensures target.text == old(target.text) + Hierarchy(listing, initDir, curDir)
  {
    ghost var t0 := target.text;
    target.Write(DesignFilesHeading);
    WriteListing(target, listing);
    var refpath := ReplaceAll(initDir, curDir + "/", "");
    target.Write(RepoLinkStart + refpath + RepoLinkEnd);
    Append3(t0, DesignFilesHeading, Terminated(Indented(listing), "\n"), RepoLink(refpath));
  }

  // ---------------------------------------------------------- command line

  /** BUILD/ becomes "<", then PROJECT becomes ".", then .xclbin becomes " XCLBIN>". */
  function Rewrite(arg: string): string
  {
    ReplaceAll(ReplaceAll(ReplaceAll(arg, "BUILD/", "<"), "PROJECT", "."), ".xclbin", " XCLBIN>")
  }

  /** An argument without "B", "P" or "." is shown as it is. */
  lemma RewriteKeepsPlain(arg: string)
    requires 'B' !in arg && 'P' !in arg && '.' !in arg
    ensures Rewrite(arg) == arg
  {
    ReplaceAbsent(arg, "BUILD/", "<");
    ReplaceAbsent(arg, "PROJECT", ".");
    ReplaceAbsent(arg, ".xclbin", " XCLBIN>");
  }

  function RewrittenArgs(cmdArgs: string): seq<string>
  {
    var args := Split(cmdArgs, " ");
    seq(|args|, i requires 0 <= i < |args| => Rewrite(args[i]))
  }

  /** What follows the executable: each space-separated argument, rewritten, after one space. */
  function ArgsText(d: Description): string
  {
    if d.launch.Some? && d.launch.value.cmdArgs.Some? then Prefixed(RewrittenArgs(d.launch.value.cmdArgs.value), " ") else ""
  }

  function CommandArgs(d: Description): string
  {
    CommandHeading + "./" + d.hostExe + ArgsText(d) + "\n\n"
  }

  /** Arguments that need no rewriting are shown exactly as cmd_args holds them, after one space. */
  lemma ArgsVerbatim(cmdArgs: string)
    requires 'B' !in cmdArgs && 'P' !in cmdArgs && '.' !in cmdArgs
    ensures Prefixed(RewrittenArgs(cmdArgs), " ") == " " + cmdArgs
  {
    var args := Split(cmdArgs, " ");
    SplitPiecesWithin(cmdArgs, " ");
    forall i | 0 <= i < |args|
      ensures Rewrite(args[i]) == args[i]
    {
      RewriteKeepsPlain(args[i]);
    }
    assert RewrittenArgs(cmdArgs) == args;
    PrefixedIsJoin(args, " ");
    JoinSplit(cmdArgs, " ");
  }

  /** The command line opens with three spaces, "./" and the host executable, whether or not launch is given. */
  lemma CommandLineStart(d: Description)
    ensures CommandArgs(d)[|CommandHeading| - 3..|CommandHeading| + 2 + |d.hostExe|] == "   ./" + d.hostExe
  {
    var rest := "./" + d.hostExe + ArgsText(d) + "\n\n";
    assert CommandArgs(d) == CommandHeading + rest;
    assert CommandHeading[|CommandHeading| - 3..] == "   ";
  }

  /** Each argument after one space, rewritten. */
  method WriteArgs(target: Target, cmdArgs: string)
    modifies target
    ensures target.text == old(target.text) + Prefixed(RewrittenArgs(cmdArgs), " ")
  {
    var args := Split(cmdArgs, " ");
    ghost var shown := RewrittenArgs(cmdArgs);
    var idx := 0;
    while idx < |args|
      invariant 0 <= idx <= |args|
      invariant target.text == old(target.text) + Prefixed(shown[..idx], " ")
    {
      assert shown[..idx + 1][..idx] == shown[..idx];
      target.Write(" ");
      var arg := args[idx];
      arg := ReplaceAll(arg, "BUILD/", "<");
      arg := ReplaceAll(arg, "PROJECT", ".");
      arg := ReplaceAll(arg, ".xclbin", " XCLBIN>");
      target.Write(arg);
      idx := idx + 1;
    }
    assert shown[..|args|] == shown;
  }

  method WriteCommandArgs(target: Target, d: Description)
    modifies target
    ensures target.text == old(target.text) + CommandArgs(d)
  {
    ghost var line := old(target.text) + CommandHeading + ("./" + d.hostExe);
    target.Write(CommandHeading);
    if d.launch.Some? {
      if d.launch.value.cmdArgs.None? {
        target.Write("./" + d.hostExe);
      } else {
        target.Write("./" + d.hostExe);
        WriteArgs(target, d.launch.value.cmdArgs.value);
      }
    } else {
      target.Write("./" + d.hostExe);
    }
    assert target.text == line + ArgsText(d);
    target.Write("\n\n");
    Append2(old(target.text) + CommandHeading, "./", d.hostExe);
    Append5(old(target.text), CommandHeading, "./", d.hostExe, ArgsText(d), "\n\n");
  }

  // ------------------------------------------------------------------ runs

  predicate HasOpenCL(d: Description)
  {
    "OpenCL" in d.runtime
  }

  /** The README was edited by hand; a match_readme that is not the string "false" leaves the gate open. */
  predicate ReadmeEdited(d: Description)
  {
    d.matchReadme == Some("false")
  }

  /**
   * The script as written: requirements is called with two of its three
   * arguments, which raises TypeError once the overview is written; and
   * with the gate closed, the closing statement names a file that was never
   * opened, which raises NameError.
   */
  function AsWrittenRun(d: Description, ref: RefData, details: Option<seq<string>>): Outcome
    requires Indexable(d)
  {
    if !HasOpenCL(d) then Outcome(None, Some(AssertionError))
    else if ReadmeEdited(d) then Outcome(None, Some(NameError))
    else Outcome(Some(Overview(d, ref, details)), Some(TypeError))
  }

  /** The evidently intended script: requirements gets the platform reference data, and only an opened file is closed. */
  function IntendedRun(d: Description, ref: RefData, plt: RefData, details: Option<seq<string>>,
                       listing: seq<string>, initDir: string, curDir: string): Outcome
    requires Indexable(d)
  {
    if !HasOpenCL(d) then Outcome(None, Some(AssertionError))
    else if ReadmeEdited(d) then Outcome(None, None)
    else Outcome(Some(Overview(d, ref, details) + Requirements(d, plt) + Hierarchy(listing, initDir, curDir) + CommandArgs(d)), None)
  }

  method GenerateAsWritten(d: Description, ref: RefData, details: Option<seq<string>>) returns (outcome: Outcome)
    requires Indexable(d)
    ensures outcome == AsWrittenRun(d, ref, details)
  {
    if !("OpenCL" in d.runtime) {
      return Outcome(None, Some(AssertionError));
    }
    if d.matchReadme.Some? && d.matchReadme.value == "false" {
      return Outcome(None, Some(NameError));
    }
    var target := new Target();
    WriteOverview(target, d, ref, details);
    assert target.text == Overview(d, ref, details);
    return Outcome(Some(target.text), Some(TypeError));
  }

  method Generate(d: Description, ref: RefData, plt: RefData, details: Option<seq<string>>,
                  listing: seq<string>, initDir: string, curDir: string) returns (outcome: Outcome)
    requires Indexable(d)
    ensures outcome == IntendedRun(d, ref, plt, details, listing, initDir, curDir)
  {
    if !("OpenCL" in d.runtime) {
      return Outcome(None, Some(AssertionError));
    }
    if d.matchReadme.Some? && d.matchReadme.value == "false" {
      return Outcome(None, None);
    }
    var target := new Target();
    WriteSections(target, d, ref, plt, details, listing, initDir, curDir);
    return Outcome(Some(target.text), None);
  }

  /** The four sections, in order, into a README opened for writing. */
  method WriteSections(target: Target, d: Description, ref: RefData, plt: RefData, details: Option<seq<string>>,
                       listing: seq<string>, initDir: string, curDir: string)
    requires Indexable(d) && target.text == ""
    modifies target
    ensures target.text == Overview(d, ref, details) + Requirements(d, plt) + Hierarchy(listing, initDir, curDir) + CommandArgs(d)
  {
    WriteOverview(target, d, ref, details);
    assert target.text == Overview(d, ref, details);
    WriteRequirements(target, d, plt);
    WriteHierarchy(target, listing, initDir, curDir);
    WriteCommandArgs(target, d);
  }

  /** As written, no run ends without an exception. */
  lemma AsWrittenAlwaysRaises(d: Description, ref: RefData, details: Option<seq<string>>)
    requires Indexable(d)
    ensures AsWrittenRun(d, ref, details).error.Some?
    ensures HasOpenCL(d) && !ReadmeEdited(d) ==> AsWrittenRun(d, ref, details).error == Some(TypeError)
  {
  }

  /** As intended, a run fails only on a description whose runtime lacks OpenCL. */
  lemma IntendedRaisesOnlyWithoutOpenCL(d: Description, ref: RefData, plt: RefData, details: Option<seq<string>>,
                                        listing: seq<string>, initDir: string, curDir: string)
    requires Indexable(d)
    ensures IntendedRun(d, ref, plt, details, listing, initDir, curDir).error.Some? <==> !HasOpenCL(d)
  {
  }

  /** A hand-edited README is left alone: no file is opened and no section is generated. */
  lemma EditedReadmeUntouched(d: Description, ref: RefData, plt: RefData, details: Option<seq<string>>,
                              listing: seq<string>, initDir: string, curDir: string)
    requires Indexable(d) && ReadmeEdited(d)
    ensures IntendedRun(d, ref, plt, details, listing, initDir, curDir).readme.None?
    ensures AsWrittenRun(d, ref, details).readme.None?
  {
  }

  /** What the script as written leaves in README.rst is a proper prefix of the intended README: the overview alone. */
  lemma AsWrittenStopsAfterOverview(d: Description, ref: RefData, plt: RefData, details: Option<seq<string>>,
                                    listing: seq<string>, initDir: string, curDir: string)
    requires Indexable(d) && HasOpenCL(d) && !ReadmeEdited(d)
    ensures var partial := AsWrittenRun(d, ref, details).readme.value;
      var full := IntendedRun(d, ref, plt, details, listing, initDir, curDir).readme.value;
      |partial| < |full| && full[..|partial|] == partial
  {
    var partial := Overview(d, ref, details);
    var rest := Requirements(d, plt) + Hierarchy(listing, initDir, curDir) + CommandArgs(d);
    assert |CommandArgs(d)| > 0;
    Append3(partial, Requirements(d, plt), Hierarchy(listing, initDir, curDir), CommandArgs(d));
    assert (partial + rest)[..|partial|] == partial;
  }
}
