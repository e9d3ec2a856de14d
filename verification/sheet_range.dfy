/** The A1-notation ranges and the Google Drive sharing link that both
    spreadsheet scripts build for every file they record. */
module SheetRange {
  import opened Wrappers
  import opened Text

  const LINK_PREFIX := "https://drive.google.com/file/d/"
  const LINK_SUFFIX := "/view?usp=sharing"

  /** The sharing link of a Drive file, as written in column C. */
  function DriveLink(fileId: string): string {
    LINK_PREFIX + fileId + LINK_SUFFIX
  }

  /** The file id between the fixed prefix and suffix of a sharing link. */
  function FileIdOfLink(link: string): Option<string> {
    if |link| >= |LINK_PREFIX| + |LINK_SUFFIX| && StartsWith(link, LINK_PREFIX)
       && link[|link| - |LINK_SUFFIX|..] == LINK_SUFFIX
    then Some(link[|LINK_PREFIX|..|link| - |LINK_SUFFIX|])
    else None
  }

  /** The link embeds the file id: it can be read back. */
  lemma DriveLinkRoundTrip(fileId: string)
    ensures FileIdOfLink(DriveLink(fileId)) == Some(fileId)
  {
    var link := DriveLink(fileId);
    assert link[..|LINK_PREFIX|] == LINK_PREFIX;
    assert link[|link| - |LINK_SUFFIX|..] == LINK_SUFFIX;
    assert link[|LINK_PREFIX|..|link| - |LINK_SUFFIX|] == fileId;
  }

  /** Every link the reader accepts is the link of the id it reads, so
      different files never share a link. */
  lemma FileIdOfLinkInverse(link: string)
    requires FileIdOfLink(link).Some?
    ensures DriveLink(FileIdOfLink(link).value) == link
  {
    var fileId := FileIdOfLink(link).value;
    assert link == link[..|LINK_PREFIX|] + fileId + link[|link| - |LINK_SUFFIX|..];
  }

  /** A file of the Drive folder; `created` is its creation time already
      formatted for display. */
  datatype DriveFile = DriveFile(id: string, name: string, created: string)

  /** The row recorded for a file: name, creation time, sharing link. */
  function RecordRow(file: DriveFile): (row: seq<string>)
    ensures |row| == 3 && row[0] == file.name && row[1] == file.created
    ensures FileIdOfLink(row[2]) == Some(file.id)
  {
    DriveLinkRoundTrip(file.id);
    [file.name, file.created, DriveLink(file.id)]
  }

  /** `<tab>!A:A`: the first column of a tab. */
  function FirstColumnRange(tab: string): string {
    tab + "!A:A"
  }

  /** `<tab>!A:C`: the three recorded columns of a tab. */
  function RecordColumnsRange(tab: string): string {
    tab + "!A:C"
  }

  /** `<tab>!A<n>:C<n>`: one row of the three recorded columns. */
  function RowRange(tab: string, row: nat): string {
    tab + "!A" + NatToString(row) + ":C" + NatToString(row)
  }

  /** Reads the cell part `A<n>:C<n>` of a one-row range: both cell
      references must name the same row. */
  function ParseRowCells(cells: string): Option<nat> {
    if |cells| == 0 || cells[0] != 'A' then None
    else
      var colon := FirstIndexOf(cells, ':');
      if colon == |cells| then None
      else ParseRowNumbers(cells[1..colon], cells[colon + 1..])
  }

  /** The row number after `A`, which the reference after the colon must
      repeat after `C`. */
  function ParseRowNumbers(first: string, second: string): Option<nat> {
    if |first| == 0 || !IsDigits(first) || second != ['C'] + first then None
    else Some(DigitsValue(first))
  }

  /** Reads a one-row range back: the tab is everything before the last
      `!` (a tab title may itself contain `!`). */
  function ParseRowRange(range: string): Option<(string, nat)> {
    var k := LastIndexOf(range, '!');
    if k < 0 then None
    else
      match ParseRowCells(range[k + 1..])
      case None => None
      case Some(row) => Some((range[..k], row))
  }

  /** The decimal digits of a row number hold neither `:` nor `!`. */
  lemma DigitsHaveNoMarks(digits: string)
    requires IsDigits(digits)
    ensures ':' !in ['A'] + digits && '!' !in ['A'] + digits + [':'] + (['C'] + digits)
  {
    var cells := ['A'] + digits + [':'] + (['C'] + digits);
    assert forall i :: 0 <= i < |cells| ==> cells[i] in "A:C" || IsDigit(cells[i]);
    assert forall i :: 0 <= i < |['A'] + digits| ==> (['A'] + digits)[i] == 'A' || IsDigit((['A'] + digits)[i]);
  }

  lemma RowCellsRoundTrip(row: nat)
    ensures var digits := NatToString(row);
            var cells := "A" + digits + ":C" + digits;
            '!' !in cells && ParseRowCells(cells) == Some(row)
  {
    var digits := NatToString(row);
    var head, tail := ['A'] + digits, ['C'] + digits;
    var cells := head + [':'] + tail;
    assert cells == "A" + digits + ":C" + digits;
    DigitsHaveNoMarks(digits);
    FirstIndexOfAfter(head, ':', tail);
    assert cells[1..|head|] == digits;
    assert cells[|head| + 1..] == tail;
    NatToStringRoundTrip(row);
    assert ParseRowNumbers(digits, tail) == Some(row);
  }

  /** A row range names its tab and row unambiguously, whatever the tab
      title contains. */
  lemma RowRangeRoundTrip(tab: string, row: nat)
    ensures ParseRowRange(RowRange(tab, row)) == Some((tab, row))
  {
    var digits := NatToString(row);
    var cells := "A" + digits + ":C" + digits;
    var range := RowRange(tab, row);
    RowCellsRoundTrip(row);
    RowRangeAfterTab(tab, row);
    PrefixBeforeLast(tab, '!', cells);
    assert range[|tab| + 1..] == cells;
  }

  /** The range is the tab, a `!`, and the cell part. */
  lemma RowRangeAfterTab(tab: string, row: nat)
    ensures var digits := NatToString(row);
            RowRange(tab, row) == tab + ['!'] + ("A" + digits + ":C" + digits)
  {
  }

  /** Different rows, or different tabs, never share a range. */
  lemma RowRangeInjective(tab1: string, row1: nat, tab2: string, row2: nat)
    requires RowRange(tab1, row1) == RowRange(tab2, row2)
    ensures tab1 == tab2 && row1 == row2
  {
    RowRangeRoundTrip(tab1, row1);
    RowRangeRoundTrip(tab2, row2);
  }

  /** The row after the last value of a column, from the number of values
      the read returned (`None` when the response carries no `values`). */
  function NextRow(valueCount: Option<nat>): (row: nat)
    ensures row >= 1
    ensures valueCount.Some? ==> row == valueCount.value + 1
    ensures valueCount.None? ==> row == 1
  {
    match valueCount
    case None => 1
    case Some(n) => n + 1
  }

  /** The rows of column A that hold a value, when the read returned
      `valueCount` values from row 1 down. */
  function FilledRows(valueCount: Option<nat>): nat {
    if valueCount.Some? then valueCount.value else 0
  }

  /** The next row's range is the first free one: it names no row that
      already holds a value, and it sits right below the last of them, so
      no gap is left. */
  lemma {:induction false} NextRowIsFirstFree(tab: string, valueCount: Option<nat>)
    ensures forall k: nat :: 1 <= k <= FilledRows(valueCount) ==>
              RowRange(tab, NextRow(valueCount)) != RowRange(tab, k)
    ensures NextRow(valueCount) == FilledRows(valueCount) + 1
  {
    forall k: nat | 1 <= k <= FilledRows(valueCount)
      ensures RowRange(tab, NextRow(valueCount)) != RowRange(tab, k)
    {
      if RowRange(tab, NextRow(valueCount)) == RowRange(tab, k) {
        RowRangeInjective(tab, NextRow(valueCount), tab, k);
      }
    }
  }
}
