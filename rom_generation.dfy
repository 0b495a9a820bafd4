/** The ROM-content generator: it writes a VHDL description of a 64 x 16-bit
    ROM whose cell at address x holds r * 64 + x for a random draw r in
    [0, 1023). The draws are an input here; everything else is fixed. */
module RomGeneration {
  import opened DecimalText
  import opened OutputFile

  /** Word length in bits. */
  const WORDL: nat := 16
  /** Address width in bits. */
  const ADDRB: nat := 6
  /** Number of cells, 2^ADDRB. */
  const CELLN: nat := Pow2(ADDRB)
  /** Destination of the generated file, relative to the project home. */
  const FNAME: string := "src/ROM.vhd"
  /** `random.randrange(0, 1023)` draws from [0, DRAW_LIMIT). */
  const DRAW_LIMIT: nat := 1023
  /** The address literal the loop compares with to spot the last entry. */
  const LAST_INDEX: nat := 63

  function Pow2(n: nat): (p: nat)
    ensures p >= 1
  {
    if n == 0 then 1 else 2 * Pow2(n - 1)
  }

  /** The sizes the script relies on: 64 cells, the literal 63 is the last
      address (for these constants only), and 16-bit words hold 65536 values. */
  lemma Constants()
    ensures CELLN == 64 && LAST_INDEX == CELLN - 1
    ensures Pow2(WORDL) == 65536
  {
  }

  /** One draw per address, each in the range `randrange(0, 1023)` yields. */
  predicate ValidDraws(draws: seq<int>)
  {
    |draws| == CELLN && forall x :: 0 <= x < |draws| ==> 0 <= draws[x] < DRAW_LIMIT
  }

  // ---------------------------------------------------------------------------
  // Cell values
  // ---------------------------------------------------------------------------

  /** The value stored at address x for draw r. Its low six bits are the
      address, the bits above them the draw, and it fits a 16-bit word. */
  function CellValue(r: nat, x: nat): (v: nat)
    requires r < DRAW_LIMIT && x < CELLN
    ensures v % 64 == x && v / 64 == r
    ensures x <= v <= (DRAW_LIMIT - 1) * 64 + x
    ensures v < Pow2(WORDL)
  {
    r * 64 + x
  }

  /** Splits a stored value back into its draw and its address. */
  function DecodeCell(v: nat): (cell: (nat, nat))
  {
    (v / 64, v % 64)
  }

  /** Every value below 1023 * 64 is the encoding of exactly one (draw,
      address) pair, and decoding undoes the encoding. */
  lemma CellCodec(r: nat, x: nat, v: nat)
    requires r < DRAW_LIMIT && x < CELLN && v < DRAW_LIMIT * 64
    ensures DecodeCell(CellValue(r, x)) == (r, x)
    ensures DecodeCell(v).0 < DRAW_LIMIT && DecodeCell(v).1 < CELLN
    ensures CellValue(DecodeCell(v).0, DecodeCell(v).1) == v
  {
  }

  /** The memory contents, indexed by address. */
  function CellValues(draws: seq<int>): (values: seq<nat>)
    requires ValidDraws(draws)
    ensures |values| == CELLN
    ensures forall x :: 0 <= x < CELLN ==>
      values[x] % 64 == x && values[x] / 64 == draws[x] && values[x] < Pow2(WORDL)
  {
    seq(CELLN, x requires 0 <= x < CELLN => CellValue(draws[x], x))
  }

  // ---------------------------------------------------------------------------
  // The text
  // ---------------------------------------------------------------------------

  /** Everything written before the first cell value, given the rendered
      top bit of the address port, of the data port and the last address. */
  function HeaderText(addrTop: string, dataTop: string, lastCell: string): string
  {
    "library IEEE;\n"
    + "  use IEEE.std_logic_1164.all;\n"
    + "  use IEEE.numeric_std.all;\n"
    + "\n"
    + "entity ROM_64x16 is\n"
    + "\tport (\n"
    + "\t\ten_in\t\t: in std_logic;\n"
    + ("\t\taddr_in\t\t: in  std_logic_vector(" + addrTop + " downto 0);\n")
    + ("\t\tdata_out\t: out std_logic_vector(" + dataTop + " downto 0)\n")
    + "\t);\n"
    + "end entity;\n"
    + "\n"
    + "architecture rtl of ROM_64x16 is\n"
    + "\n"
    + ("\ttype ROM_t is array (natural range 0 to " + lastCell + ") of integer;\n")
    + "\tconstant ROM_c\t: ROM_t := (\n\t\t"
  }

  /** Everything written after the last cell value, given the rendered top
      bit of data_s and the width of the conversion to unsigned. */
  function FooterText(dataTop: string, width: string): string
  {
    ");\n"
    + ("\tsignal data_s\t: std_logic_vector(" + dataTop + " downto 0);")
    + "\n"
    + "begin\n"
    + ("\tdata_out <= std_logic_vector(to_unsigned(ROM_c(to_integer(unsigned(addr_in))),"
       + width + ")) when en_in = '1' else (others => 'Z');\n")
    + "\tdata_out <= data_s;\n"
    + "end architecture;\n"
  }

  function Header(): string
  {
    HeaderText(Decimal(ADDRB - 1), Decimal(WORDL - 1), Decimal(CELLN - 1))
  }

  function Footer(): string
  {
    FooterText(Decimal(WORDL - 1), Decimal(WORDL))
  }

  /** The widths written follow the constants: address port 5 downto 0, data
      port and data_s 15 downto 0, array 0 to 63, conversion to 16 bits. */
  lemma RenderedWidths()
    ensures Header() == HeaderText("5", "15", "63")
    ensures Footer() == FooterText("15", "16")
  {
    assert Decimal(ADDRB - 1) == "5";
    assert Decimal(WORDL - 1) == "15";
    assert Decimal(WORDL) == "16";
    assert Decimal(CELLN - 1) == "63";
  }

  /** What follows the value at address x: a comma unless x is the last
      address, then a line break after every eighth value. */
  function Separator(x: nat): (sep: string)
    ensures sep != [] && NoDigits(sep)
    ensures (',' in sep) <==> x != LAST_INDEX
    ensures ('\n' in sep) <==> x % 8 == 7
  {
    (if x != LAST_INDEX then ", " else "") + (if x % 8 == 7 then "\n\t\t" else "")
  }

  /** The list of values as the loop writes it, value i at address i. */
  function Body(values: seq<nat>): (text: string)
    ensures values == [] <==> text == []
  {
    if values == [] then []
    else
      var x := |values| - 1;
      Body(values[..x]) + Decimal(values[x]) + Separator(x)
  }

  // ---------------------------------------------------------------------------
  // The generator
  // ---------------------------------------------------------------------------

  /** The script: open the file, write the header, one value per address
      with its separator, the footer, close. Returns what the file holds. */
  method Generate(draws: seq<int>) returns (rom: string)
    requires ValidDraws(draws)
    ensures rom == Header() + Body(CellValues(draws)) + Footer()
  {
    var outFile := new OutFile.Open(FNAME);
    WriteRom(outFile, draws);
    outFile.Close();
    rom := outFile.text;
  }

  /** Everything written between opening and closing the file. */
  method WriteRom(outFile: OutFile, draws: seq<int>)
    requires ValidDraws(draws) && outFile.isOpen && outFile.text == []
    modifies outFile
    ensures outFile.isOpen && outFile.text == Header() + Body(CellValues(draws)) + Footer()
  {
    WriteHeader(outFile);
    WriteCells(outFile, draws);
    WriteFooter(outFile);
  }

  /** The loop over the addresses: for each, the value r * 64 + x, then a
      comma unless x is 63, then a line break if x closes a group of eight. */
  method WriteCells(outFile: OutFile, draws: seq<int>)
    requires ValidDraws(draws) && outFile.isOpen
    modifies outFile
    ensures outFile.isOpen && outFile.text == old(outFile.text) + Body(CellValues(draws))
  {
    ghost var start := outFile.text;
    ghost var values := CellValues(draws);
    var x := 0;
    while x < CELLN
      invariant 0 <= x <= CELLN
      invariant outFile.isOpen
      invariant outFile.text == start + Body(values[..x])
    {
      var rnum := draws[x];
      rnum := rnum * 64;
      rnum := rnum + x;
      assert rnum == values[x];
      WriteCell(outFile, x, rnum);
      BodyStep(values, x);
      AppendAssoc(start, Body(values[..x]), Decimal(values[x]) + Separator(x));
      x := x + 1;
    }
    assert values[..CELLN] == values;
  }

  /** One turn of the loop after the value is computed: the value, a comma
      unless x is 63, a line break if x closes a group of eight. */
  method WriteCell(outFile: OutFile, x: nat, rnum: nat)
    requires outFile.isOpen
    modifies outFile
    ensures outFile.isOpen && outFile.text == old(outFile.text) + (Decimal(rnum) + Separator(x))
  {
    ghost var written := outFile.text;
    if x != LAST_INDEX {
      outFile.Write(Decimal(rnum) + ", ");
    } else {
      outFile.Write(Decimal(rnum));
    }
    if x % 8 == 7 {
      outFile.Write("\n\t\t");
    }
    EntryWritten(written, outFile.text, Decimal(rnum), x);
  }

  /** The fixed text written before the loop. */
  method WriteHeader(outFile: OutFile)
    requires outFile.isOpen && outFile.text == []
    modifies outFile
    ensures outFile.isOpen && outFile.text == Header()
  {
    outFile.Write("library IEEE;\n");
    assert outFile.text == "library IEEE;\n";
    outFile.Write("  use IEEE.std_logic_1164.all;\n");
    outFile.Write("  use IEEE.numeric_std.all;\n");
    outFile.Write("\n");
    outFile.Write("entity ROM_64x16 is\n");
    outFile.Write("\tport (\n");
    outFile.Write("\t\ten_in\t\t: in std_logic;\n");
    outFile.Write("\t\taddr_in\t\t: in  std_logic_vector(" + Decimal(ADDRB - 1) + " downto 0);\n");
    outFile.Write("\t\tdata_out\t: out std_logic_vector(" + Decimal(WORDL - 1) + " downto 0)\n");
    outFile.Write("\t);\n");
    outFile.Write("end entity;\n");
    outFile.Write("\n");
    outFile.Write("architecture rtl of ROM_64x16 is\n");
    outFile.Write("\n");
    outFile.Write("\ttype ROM_t is array (natural range 0 to " + Decimal(CELLN - 1) + ") of integer;\n");
    outFile.Write("\tconstant ROM_c\t: ROM_t := (\n\t\t");
  }

  /** The fixed text written after the loop. */
  method WriteFooter(outFile: OutFile)
    requires outFile.isOpen
    modifies outFile
    ensures outFile.isOpen && outFile.text == old(outFile.text) + Footer()
  {
    ghost var before := outFile.text;
    var line: string;
    line := ");\n";
    outFile.Write(line);
    ghost var footer := line;
    line := "\tsignal data_s\t: std_logic_vector(" + Decimal(WORDL - 1) + " downto 0);";
    outFile.Write(line);
    AppendAssoc(before, footer, line);
    footer := footer + line;
    line := "\n";
    outFile.Write(line);
    AppendAssoc(before, footer, line);
    footer := footer + line;
    line := "begin\n";
    outFile.Write(line);
    AppendAssoc(before, footer, line);
    footer := footer + line;
    line := "\tdata_out <= std_logic_vector(to_unsigned(ROM_c(to_integer(unsigned(addr_in))),"
      + Decimal(WORDL) + ")) when en_in = '1' else (others => 'Z');\n";
    outFile.Write(line);
    AppendAssoc(before, footer, line);
    footer := footer + line;
    line := "\tdata_out <= data_s;\n";
    outFile.Write(line);
    AppendAssoc(before, footer, line);
    footer := footer + line;
    line := "end architecture;\n";
    outFile.Write(line);
    AppendAssoc(before, footer, line);
    footer := footer + line;
    assert footer == Footer();
  }

  lemma AppendAssoc(a: string, b: string, c: string)
    ensures (a + b) + c == a + (b + c)
  {
  }

  /** What one turn of the loop appends: the value, then its separator. */
  lemma EntryWritten(before: string, after: string, digits: string, x: nat)
    requires after == if x % 8 == 7 then before + (if x != LAST_INDEX then digits + ", " else digits) + "\n\t\t"
                      else before + (if x != LAST_INDEX then digits + ", " else digits)
    ensures after == before + (digits + Separator(x))
  {
  }

  lemma PrefixOfAppend(p: string, a: string, b: string)
    requires p <= a
    ensures p <= a + b
  {
    assert (a + b)[..|a|] == a;
  }

  /** The list ends with the last value and its separator. */
  lemma BodyLast(values: seq<nat>)
    requires values != []
    ensures Body(values) == Body(values[..|values| - 1])
      + (Decimal(values[|values| - 1]) + Separator(|values| - 1))
  {
    var x := |values| - 1;
    AppendAssoc(Body(values[..x]), Decimal(values[x]), Separator(x));
  }

  /** Appending the value at address x to the list written so far. */
  lemma BodyStep(values: seq<nat>, x: nat)
    requires x < |values|
    ensures Body(values[..x + 1]) == Body(values[..x]) + (Decimal(values[x]) + Separator(x))
  {
    assert values[..x + 1][..x] == values[..x];
  }

  // ---------------------------------------------------------------------------
  // Properties of the list of values
  // ---------------------------------------------------------------------------

  /** Splitting the list on its separators and white space gives back the
      values, in address order. */
  lemma {:induction false} BodyNumbers(values: seq<nat>)
    ensures Numbers(Body(values)) == values
  {
    if values != [] {
      var x := |values| - 1;
      var init, entry := values[..x], Decimal(values[x]) + Separator(x);
      BodyLast(values);
      BodyNumbers(init);
      EntryNumbers(values[x], x);
      if init != [] {
        BodyEndsWithSeparator(init);
      }
      NumbersAppend(Body(init), entry);
      assert values == init + [values[x]];
    }
  }

  /** A non-empty list ends with a separator character, never a digit. */
  lemma BodyEndsWithSeparator(values: seq<nat>)
    requires values != []
    ensures !IsDigit(Body(values)[|Body(values)| - 1])
  {
    var x := |values| - 1;
    var sep := Separator(x);
    BodyLast(values);
    AppendAssoc(Body(values[..x]), Decimal(values[x]), sep);
    assert Body(values)[|Body(values)| - 1] == sep[|sep| - 1];
  }

  /** A value followed by its separator reads back as that value alone. */
  lemma EntryNumbers(v: nat, x: nat)
    ensures Numbers(Decimal(v) + Separator(x)) == [v]
  {
    NumbersOfDecimal(v);
    NumbersOfNoDigits(Separator(x));
    NumbersAppend(Decimal(v), Separator(x));
  }

  /** One comma per value except after address 63, one line break per
      completed group of eight values. */
  lemma {:induction false} BodySeparatorCounts(values: seq<nat>)
    ensures multiset(Body(values))[','] == |values| - (if |values| > LAST_INDEX then 1 else 0)
    ensures multiset(Body(values))['\n'] == |values| / 8
  {
    if values != [] {
      var x := |values| - 1;
      var init, entry := values[..x], Decimal(values[x]) + Separator(x);
      BodyLast(values);
      BodySeparatorCounts(init);
      EntrySeparatorCounts(values[x], x);
      SeparatorCountsStep(Body(values), Body(init), entry, x);
    }
  }

  /** Extending a list of x values by entry x adds the entry's commas and
      line breaks to the counts. */
  lemma SeparatorCountsStep(whole: string, before: string, entry: string, x: nat)
    requires whole == before + entry
    requires multiset(before)[','] == x - (if x > LAST_INDEX then 1 else 0)
    requires multiset(before)['\n'] == x / 8
    requires multiset(entry)[','] == (if x != LAST_INDEX then 1 else 0)
    requires multiset(entry)['\n'] == (if x % 8 == 7 then 1 else 0)
    ensures multiset(whole)[','] == x + 1 - (if x + 1 > LAST_INDEX then 1 else 0)
    ensures multiset(whole)['\n'] == (x + 1) / 8
  {
    assert multiset(whole) == multiset(before) + multiset(entry);
  }

  /** A value followed by its separator holds one comma unless x is the last
      address, and one line break if x closes a group of eight. */
  lemma EntrySeparatorCounts(v: nat, x: nat)
    ensures multiset(Decimal(v) + Separator(x))[','] == (if x != LAST_INDEX then 1 else 0)
    ensures multiset(Decimal(v) + Separator(x))['\n'] == (if x % 8 == 7 then 1 else 0)
  {
    var digits := Decimal(v);
    assert multiset(digits + Separator(x)) == multiset(digits) + multiset(Separator(x));
    DigitsHaveNoSeparators(digits);
    SeparatorCounts(x);
  }

  lemma DigitsHaveNoSeparators(digits: string)
    requires AllDigits(digits)
    ensures multiset(digits)[','] == 0 && multiset(digits)['\n'] == 0
  {
    assert !IsDigit(',') && !IsDigit('\n');
  }

  lemma SeparatorCounts(x: nat)
    ensures multiset(Separator(x))[','] == (if x != LAST_INDEX then 1 else 0)
    ensures multiset(Separator(x))['\n'] == (if x % 8 == 7 then 1 else 0)
  {
  }

  /** The separators of the first n addresses, in order. */
  function Separators(n: nat): (seps: string)
    ensures NoDigits(seps)
  {
    if n == 0 then [] else Separators(n - 1) + Separator(n - 1)
  }

  /** With the digits deleted, the list is the same for all values: only the
      number of values decides its layout. */
  lemma {:induction false} BodyShape(values: seq<nat>)
    ensures NonDigits(Body(values)) == Separators(|values|)
  {
    if values != [] {
      var x := |values| - 1;
      var init := values[..x];
      BodyLast(values);
      BodyShape(init);
      NonDigitsAppend(Body(init), Decimal(values[x]) + Separator(x));
      NonDigitsAppend(Decimal(values[x]), Separator(x));
      NonDigitsOfDigits(Decimal(values[x]));
      NonDigitsOfDigits(Separator(x));
    }
  }

  /** Two runs write the same file apart from the digits of the values. */
  lemma SameLayout(draws: seq<int>, other: seq<int>)
    requires ValidDraws(draws) && ValidDraws(other)
    ensures NonDigits(Header() + Body(CellValues(draws)) + Footer())
         == NonDigits(Header() + Body(CellValues(other)) + Footer())
  {
    BodyShape(CellValues(draws));
    BodyShape(CellValues(other));
    NonDigitsAppend(Header(), Body(CellValues(draws)));
    NonDigitsAppend(Header(), Body(CellValues(other)));
    NonDigitsAppend(Header() + Body(CellValues(draws)), Footer());
    NonDigitsAppend(Header() + Body(CellValues(other)), Footer());
  }

  /** The text written for the first k values is a prefix of the whole list. */
  lemma {:induction false} BodyPrefix(values: seq<nat>, k: nat)
    requires k <= |values|
    ensures Body(values[..k]) <= Body(values)
    decreases |values| - k
  {
    if k < |values| {
      BodyPrefix(values, k + 1);
      BodyStep(values, k);
      PrefixOfAppend(Body(values[..k]), Body(values[..k]), Decimal(values[k]) + Separator(k));
    } else {
      assert values[..k] == values;
    }
  }

  /** The value at address x is written right after those at addresses below
      x and is followed by its own separator. */
  lemma EntryPlacement(values: seq<nat>, x: nat)
    requires x < |values|
    ensures Body(values[..x]) + (Decimal(values[x]) + Separator(x)) <= Body(values)
  {
    BodyPrefix(values, x + 1);
    BodyStep(values, x);
  }

  /** The list of values in the generated file: read back, it gives the 64
      values in address order, each giving back its address in its low six
      bits and its draw above them, each below 2^16; it holds 63 commas and
      8 line breaks, the last break right after the value at address 63,
      which has no comma after it. */
  lemma RomBody(draws: seq<int>)
    requires ValidDraws(draws)
    ensures var values := CellValues(draws);
      var body := Body(values);
      && Numbers(body) == values
      && |Numbers(body)| == CELLN
      && (forall x :: 0 <= x < CELLN ==>
            Numbers(body)[x] % 64 == x && Numbers(body)[x] / 64 == draws[x]
            && Numbers(body)[x] < Pow2(WORDL))
      && multiset(body)[','] == CELLN - 1
      && multiset(body)['\n'] == CELLN / 8
      && body == Body(values[..LAST_INDEX]) + (Decimal(values[LAST_INDEX]) + "\n\t\t")
  {
    var values := CellValues(draws);
    Constants();
    BodyNumbers(values);
    BodySeparatorCounts(values);
    BodyLast(values);
    assert Separator(LAST_INDEX) == "\n\t\t";
  }
}
