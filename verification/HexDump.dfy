/** The hex dump both raw/main.c and Sniffer/linux_raw/main.c print. */
module HexDump {

  import opened Octets
  import opened Sequences

  const COLUMNS: nat := 16

  // ---------------------------------------------------------------- the layout

  function HexDigit(d: nat): char
    requires d < 16
  {
    "0123456789abcdef"[d]
  }

  /** `%02x ` */
  function Hex(x: Byte): (s: string)
    ensures |s| == 3
  {
    [HexDigit(x / 16), HexDigit(x % 16), ' ']
  }

  function HexPart(row: seq<Byte>): (s: string)
    ensures |s| == 3 * |row|
  {
    if row == [] then "" else HexPart(row[..|row| - 1]) + Hex(row[|row| - 1])
  }

  function Glyph(x: Byte): char {
    if 31 < x < 127 then x as char else '.'
  }

  function TextPart(row: seq<Byte>): (s: string)
    ensures |s| == |row|
  {
    if row == [] then "" else TextPart(row[..|row| - 1]) + [Glyph(row[|row| - 1])]
  }

  function Blanks(n: nat): (s: string)
    ensures |s| == 3 * n
  {
    if n == 0 then "" else Blanks(n - 1) + "   "
  }

  /** What follows the hex columns: blanks for the missing ones, a bar, the text. */
  function RowTail(row: seq<Byte>): (s: string)
    requires |row| <= COLUMNS
    ensures |s| == 51 + |row| - 3 * |row|
  {
    Blanks(COLUMNS - |row|) + "| " + TextPart(row) + "\n"
  }

  /** One line. */
  function Row(row: seq<Byte>): (s: string)
    requires |row| <= COLUMNS
    ensures |s| == 51 + |row|
  {
    HexPart(row) + RowTail(row)
  }

  function Rows(data: seq<Byte>): string {
    if data == [] then ""
    else if |data| <= COLUMNS then Row(data)
    else Row(data[..COLUMNS]) + Rows(data[COLUMNS..])
  }

  // ---------------------------------------------------------------- the nested loops

  lemma {:induction false} RowsAppend(data: seq<Byte>, row: seq<Byte>)
    requires |data| % COLUMNS == 0 && 0 < |row| <= COLUMNS
    ensures Rows(data + row) == Rows(data) + Row(row)
  {
    if data == [] {
      assert data + row == row;
      assert "" + Row(row) == Row(row);
    } else {
      var more := data[COLUMNS..];
      assert (data + row)[..COLUMNS] == data[..COLUMNS];
      assert (data + row)[COLUMNS..] == more + row;
      RowsAppend(more, row);
      if |data| == COLUMNS {
        assert data[..COLUMNS] == data;
        assert Rows(data) + "" == Rows(data);
      }
      assert Row(data[..COLUMNS]) + (Rows(more) + Row(row)) == Row(data[..COLUMNS]) + Rows(more) + Row(row);
    }
  }

  /** The first octet of the line octet `i` is on. */
  function RowStart(i: nat): (r: nat)
    ensures r <= i < r + COLUMNS && r % COLUMNS == 0
  {
    i - i % 16
  }

  lemma NextRowStart(i: nat)
    ensures RowStart(i + 1) == if i % 16 == 15 then i + 1 else RowStart(i)
  {
  }

  /** The text loop: the printable form of octets `start` to `i`. */
  method PrintText(data: seq<Byte>, start: nat, i: nat) returns (out: string)
    requires start <= i < |data|
    ensures out == TextPart(data[start..i + 1])
  {
    out := "";
    ghost var row: seq<Byte> := data[start..i + 1];
    var j := start;
    while j <= i
      invariant start <= j <= i + 1
      invariant out == TextPart(row[..j - start])
    {
      var byte := data[j];
      ghost var n := j - start;
      assert row[..n + 1][..n] == row[..n] && row[n] == byte;
      if 31 < byte && byte < 127 {
        out := out + [byte as char];
      } else {
        out := out + ".";
      }
      j := j + 1;
    }
    assert row[..i + 1 - start] == row;
  }

  /** The end of the line that ends with octet `i`: padding, bar, text and newline. */
  method FinishRow(data: seq<Byte>, i: nat) returns (out: string)
    requires i < |data|
    ensures out == RowTail(data[RowStart(i)..i + 1])
  {
    out := "";
    var j := 0;
    while j < 15 - i % 16
      invariant 0 <= j <= 15 - i % 16
      invariant out == Blanks(j)
    {
      out := out + "   ";
      j := j + 1;
    }
    out := out + "| ";
    var text := PrintText(data, i - i % 16, i);
    out := out + text;
    out := out + "\n";
  }

  /** What has been printed before octet `i`. */
  function Printed(data: seq<Byte>, i: nat): string
    requires i <= |data|
  {
    if i == |data| then Rows(data) else Rows(data[..RowStart(i)]) + HexPart(data[RowStart(i)..i])
  }

  lemma PrintedAtRowStart(data: seq<Byte>, i: nat)
    requires i <= |data| && (i == |data| || RowStart(i) == i)
    ensures Printed(data, i) == Rows(data[..i])
  {
    if i == |data| {
      assert data[..i] == data;
    } else {
      assert data[i..i] == [];
      assert Rows(data[..i]) + "" == Rows(data[..i]);
    }
  }

  /** One more octet in the hex columns. */
  lemma HexPrinted(data: seq<Byte>, i: nat)
    requires i < |data|
    ensures Printed(data, i) + Hex(data[i])
            == Rows(data[..RowStart(i)]) + HexPart(data[RowStart(i)..i + 1])
  {
    var r := RowStart(i);
    var row := data[r..i + 1];
    assert row[..|row| - 1] == data[r..i] && row[|row| - 1] == data[i];
    assert HexPart(row) == HexPart(data[r..i]) + Hex(data[i]);
  }

  lemma RowContinues(data: seq<Byte>, i: nat)
    requires i + 1 < |data| && i % 16 != 15
    ensures Printed(data, i) + Hex(data[i]) == Printed(data, i + 1)
  {
    HexPrinted(data, i);
    NextRowStart(i);
  }

  /** Complete lines before octet `r`, and the line from there to `n`. */
  lemma RowsThenRow(data: seq<Byte>, r: nat, n: nat)
    requires r % COLUMNS == 0 && r < n <= |data| && n <= r + COLUMNS
    ensures Rows(data[..r]) + Row(data[r..n]) == Rows(data[..n])
  {
    var before, row, whole := data[..r], data[r..n], data[..n];
    assert before + row == whole;
    RowsAppend(before, row);
  }

  lemma RowsGrow(data: seq<Byte>, i: nat)
    requires i < |data| && (i % 16 == 15 || i == |data| - 1)
    ensures Rows(data[..RowStart(i)]) + Row(data[RowStart(i)..i + 1]) == Printed(data, i + 1)
  {
    NextRowStart(i);
    PrintedAtRowStart(data, i + 1);
    RowsThenRow(data, RowStart(i), i + 1);
  }

  lemma JoinRow(before: string, row: seq<Byte>, whole: string)
    requires |row| <= COLUMNS && before + Row(row) == whole
    ensures (before + HexPart(row)) + RowTail(row) == whole
  {
    Associates(before, HexPart(row), RowTail(row));
  }

  lemma RowEnds(data: seq<Byte>, i: nat)
    requires i < |data| && (i % 16 == 15 || i == |data| - 1)
    ensures Printed(data, i) + Hex(data[i]) + RowTail(data[RowStart(i)..i + 1]) == Printed(data, i + 1)
  {
    HexPrinted(data, i);
    RowsGrow(data, i);
    JoinRow(Rows(data[..RowStart(i)]), data[RowStart(i)..i + 1], Printed(data, i + 1));
  }

  /** `dump`: the nested loops print exactly the rows. */
  method Dump(data: seq<Byte>) returns (out: string)
    ensures out == Rows(data)
  {
    out := "";
    var i := 0;
    PrintedAtRowStart(data, 0);
    assert data[..0] == [];
    while i < |data|
      invariant 0 <= i <= |data|
      invariant out == Printed(data, i)
    {
      out := out + Hex(data[i]);
      if i % 16 == 15 || i == |data| - 1 {
        RowEnds(data, i);
        var tail := FinishRow(data, i);
        out := out + tail;
      } else {
        RowContinues(data, i);
      }
      i := i + 1;
    }
  }

  // ---------------------------------------------------------------- reading a dump back

  function DigitOf(c: char): int {
    if '0' <= c <= '9' then c as int - '0' as int
    else if 'a' <= c <= 'f' then c as int - 'a' as int + 10
    else 0
  }

  /** The octets in the hex columns of a line, from column `k` on. */
  function Columns(line: string, k: nat): seq<int>
    decreases COLUMNS - k
  {
    if k >= COLUMNS || 3 * k + 1 >= |line| || line[3 * k] == ' ' then []
    else [16 * DigitOf(line[3 * k]) + DigitOf(line[3 * k + 1])] + Columns(line, k + 1)
  }

  /** The octets a dump shows, read off its hex columns line by line. */
  function Decode(text: string): seq<int>
    decreases |text|
  {
    if text == "" then []
    else
      var row := Columns(text, 0);
      if |text| < 51 + |row| then row else row + Decode(text[51 + |row|..])
  }

  lemma DigitReadsBack(d: nat)
    requires d < 16
    ensures DigitOf(HexDigit(d)) == d && HexDigit(d) != ' '
  {
  }

  lemma HexReadsBack(x: Byte)
    ensures DigitOf(HexDigit(x / 16)) == x / 16 && DigitOf(HexDigit(x % 16)) == x % 16
    ensures HexDigit(x / 16) != ' '
  {
    DigitReadsBack(x / 16);
    DigitReadsBack(x % 16);
  }

  lemma {:induction false} HexPartAt(row: seq<Byte>, k: nat)
    requires k < |row|
    ensures HexPart(row)[3 * k] == HexDigit(row[k] / 16) && HexPart(row)[3 * k + 1] == HexDigit(row[k] % 16)
  {
    var less := row[..|row| - 1];
    if k < |less| {
      HexPartAt(less, k);
    }
  }

  lemma {:induction false} BlanksAreBlank(n: nat, i: nat)
    requires i < 3 * n
    ensures Blanks(n)[i] == ' '
  {
    if i < 3 * (n - 1) {
      BlanksAreBlank(n - 1, i);
    }
  }

  /** The characters in hex column `k` of a line. */
  lemma ColumnAt(row: seq<Byte>, rest: string, k: nat)
    requires k < COLUMNS && |row| <= COLUMNS
    ensures var line := Row(row) + rest;
            && (k < |row| ==> line[3 * k] == HexDigit(row[k] / 16) && line[3 * k + 1] == HexDigit(row[k] % 16))
            && (k >= |row| ==> line[3 * k] == ' ')
  {
    var line := Row(row) + rest;
    if k < |row| {
      HexPartAt(row, k);
      assert line[3 * k] == HexPart(row)[3 * k] && line[3 * k + 1] == HexPart(row)[3 * k + 1];
    } else {
      BlanksAreBlank(COLUMNS - |row|, 3 * (k - |row|));
      assert line[3 * k] == RowTail(row)[3 * (k - |row|)] == Blanks(COLUMNS - |row|)[3 * (k - |row|)];
    }
  }

  lemma ColumnStep(line: string, k: nat, x: Byte)
    requires k < COLUMNS && 3 * k + 1 < |line|
    requires line[3 * k] == HexDigit(x / 16) && line[3 * k + 1] == HexDigit(x % 16)
    ensures Columns(line, k) == [x] + Columns(line, k + 1)
  {
    HexReadsBack(x);
  }

  lemma {:induction false} ColumnsOfRow(row: seq<Byte>, rest: string, k: nat)
    requires k <= |row| <= COLUMNS
    ensures Columns(Row(row) + rest, k) == row[k..]
    decreases |row| - k
  {
    if k < |row| {
      ColumnAt(row, rest, k);
      ColumnStep(Row(row) + rest, k, row[k]);
      ColumnsOfRow(row, rest, k + 1);
      assert row[k..] == [row[k]] + row[k + 1..];
    } else if k < COLUMNS {
      ColumnAt(row, rest, k);
    }
  }

  lemma DecodeRow(row: seq<Byte>, rest: string)
    requires 0 < |row| <= COLUMNS
    ensures Decode(Row(row) + rest) == row + Decode(rest)
  {
    var text := Row(row) + rest;
    ColumnsOfRow(row, rest, 0);
    assert row[0..] == row;
    assert text[51 + |row|..] == rest;
  }

  /** A reader of the hex columns recovers the octets dumped. */
  lemma {:induction false} DumpReadsBack(data: seq<Byte>)
    ensures Decode(Rows(data)) == data
  {
    if |data| > COLUMNS {
      DecodeRow(data[..COLUMNS], Rows(data[COLUMNS..]));
      DumpReadsBack(data[COLUMNS..]);
      assert data == data[..COLUMNS] + data[COLUMNS..];
    } else if data != [] {
      DecodeRow(data, "");
      assert Row(data) + "" == Row(data);
    }
  }

  /** Different octets print differently. */
  lemma DumpIsInjective(a: seq<Byte>, b: seq<Byte>)
    requires Rows(a) == Rows(b)
    ensures a == b
  {
    DumpReadsBack(a);
    DumpReadsBack(b);
  }

  lemma OneLineMore(n: nat)
    ensures n >= 16 ==> (n + 15) / 16 == 1 + (n - 16 + 15) / 16
    ensures n < 16 ==> (n + 15) / 16 == if n == 0 then 0 else 1
  {
  }

  /** The length of a dump: 51 characters for every line begun and one for every octet. */
  lemma {:induction false} DumpLength(data: seq<Byte>)
    ensures |Rows(data)| == 51 * ((|data| + 15) / 16) + |data|
  {
    OneLineMore(|data|);
    if |data| > COLUMNS {
      DumpLength(data[COLUMNS..]);
      assert |Row(data[..COLUMNS])| == 51 + COLUMNS;
    }
  }

  lemma {:induction false} TextPartAt(row: seq<Byte>, k: nat)
    requires k < |row|
    ensures TextPart(row)[k] == if 32 <= row[k] <= 126 then row[k] as char else '.'
  {
    if k < |row| - 1 {
      TextPartAt(row[..|row| - 1], k);
    }
  }

  lemma {:induction false} HexSpaceAt(row: seq<Byte>, k: nat)
    requires k < |row|
    ensures HexPart(row)[3 * k + 2] == ' '
  {
    if k < |row| - 1 {
      HexSpaceAt(row[..|row| - 1], k);
    }
  }

  /** Every line has its bar in column 48. */
  lemma BarColumn(row: seq<Byte>)
    requires |row| <= COLUMNS
    ensures Row(row)[48..50] == "| "
  {
    assert |HexPart(row) + Blanks(COLUMNS - |row|)| == 48;
  }

  lemma PartsAt(hex: string, blanks: string, text: string, line: string)
    requires |hex| + |blanks| == 48 && line == hex + (blanks + "| " + text + "\n")
    ensures line[..|hex|] == hex && line[|hex|..48] == blanks
    ensures line[50..50 + |text|] == text && line[50 + |text|] == '\n'
  {
  }

  /** The parts of a line meet in columns 48 and 50. */
  lemma RowParts(row: seq<Byte>)
    requires |row| <= COLUMNS
    ensures Row(row)[..3 * |row|] == HexPart(row)
    ensures Row(row)[3 * |row|..48] == Blanks(COLUMNS - |row|)
    ensures Row(row)[50..50 + |row|] == TextPart(row)
    ensures Row(row)[50 + |row|] == '\n'
  {
    PartsAt(HexPart(row), Blanks(COLUMNS - |row|), TextPart(row), Row(row));
  }

  /** A line character by character: two lower-case hex digits and a space for each octet,
      blanks up to the bar in column 48, each octet that is printable ASCII and a dot for any
      other, a newline. */
  lemma RowCharacters(row: seq<Byte>, k: nat)
    requires |row| <= 16
    ensures k < |row| ==>
              && Row(row)[3 * k] == "0123456789abcdef"[row[k] / 16]
              && Row(row)[3 * k + 1] == "0123456789abcdef"[row[k] % 16]
              && Row(row)[3 * k + 2] == ' '
              && Row(row)[50 + k] == if 32 <= row[k] <= 126 then row[k] as char else '.'
    ensures 3 * |row| <= k < 48 ==> Row(row)[k] == ' '
    ensures |Row(row)| == 51 + |row| && Row(row)[48..50] == "| " && Row(row)[50 + |row|] == '\n'
  {
    RowParts(row);
    BarColumn(row);
    if k < |row| {
      HexPartAt(row, k);
      HexSpaceAt(row, k);
      TextPartAt(row, k);
      assert Row(row)[..3 * |row|][3 * k + 2] == ' ';
      assert Row(row)[50..50 + |row|][k] == TextPart(row)[k];
    }
    if 3 * |row| <= k < 48 {
      BlanksAreBlank(COLUMNS - |row|, k - 3 * |row|);
      assert Row(row)[3 * |row|..48][k - 3 * |row|] == ' ';
    }
  }
}
