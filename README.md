# ROM content generator

`scripts/ROM_generation.py` writes `src/ROM.vhd`, the VHDL description of a
64 x 16-bit ROM. The file has three parts:

- a fixed header: the library clauses, the entity with its enable, address and
  data ports, and the start of the architecture up to the opening of the
  `ROM_c` constant;
- the list of the 64 cell values;
- a fixed footer that closes the constant, declares `data_s` and drives the
  data port.

The cell at address x holds `r * 64 + x`, where r is a random draw in
[0, 1023). The address can therefore be read back from the value's low six
bits. Each value is written in decimal. A comma follows every value except the
one at address 63, and a line break with two tabs follows every eighth value.

The model has three modules:

- `DecimalText` (`decimal_text.dfy`) models Python's `str()` on non-negative
  integers. It also has the reading that turns such text back into numbers:
  `ParseDecimal` reads one run of digits, and `Numbers` splits a text into
  its maximal runs of digits and reads each one.
- `OutputFile` (`output_file.dfy`) is the file object as the script uses it.
  The class `OutFile` holds the text written so far and whether the file is
  still open. `Open` truncates, `Write` appends and `Close` ends writing.
- `RomGeneration` (`rom_generation.dfy`) holds the script itself:
  - its constants `WORDL`, `ADDRB`, `CELLN` and `FNAME`;
  - the cell encoding `CellValue`;
  - the expected text, as the functions `Header`, `Body` and `Footer`;
  - the method `Generate`, which follows the script write by write. Its loop
    over the addresses is the `while` loop of `WriteCells`.

`Generate` is proved to produce exactly `Header() + Body(values) + Footer()`.
Lemmas about `Body` state the rest:

- the list reads back as the 64 values in address order;
- each value keeps its address in the low six bits and its draw above them,
  and fits in 16 bits;
- the list has 63 commas and 8 line breaks, the last break right before the
  footer;
- with the digits deleted, every run writes the same file.

The random draws are an input: `Generate` takes the sequence of the 64 draws
and requires each of them to lie in [0, 1023).

## Model

| member | source | states |
|---|---|---|
| `DecimalText.Decimal` | scripts/ROM_generation.py:47-49 | `str(rnum)`: at least one digit, digits only, no leading zero unless the text is "0" |
| `DecimalText.DecimalRoundTrip` | scripts/ROM_generation.py:47-49 | reading back the decimal text of n gives n |
| `DecimalText.ParseRoundTrip` | scripts/ROM_generation.py:47-49 | every canonical digit string is the decimal text of the number it denotes, so writing and reading are inverse |
| `DecimalText.NumbersOfDecimal` | scripts/ROM_generation.py:47-49 | the decimal text of n, split into numbers, is exactly [n] |
| `DecimalText.NumbersAppend` | scripts/ROM_generation.py:46-52 | splitting text into numbers distributes over concatenation when the cut is not inside a run of digits |
| `DecimalText.NonDigitsAppend` | scripts/ROM_generation.py:46-52 | deleting digits distributes over concatenation |
| `DecimalText.NonDigitsOfDigits` | scripts/ROM_generation.py:47-52 | deleting digits removes a value's text completely and leaves a separator unchanged |
| `OutputFile.OutFile.Open` | scripts/ROM_generation.py:22 | opening with mode "w" starts from an empty file, so nothing from an earlier run remains |
| `OutputFile.OutFile.Write` | scripts/ROM_generation.py:24 | a write appends its argument and leaves the earlier text unchanged |
| `OutputFile.OutFile.Close` | scripts/ROM_generation.py:64 | closing keeps the text as written and ends writing |
| `RomGeneration.Constants` | scripts/ROM_generation.py:14-16 | `CELLN` is 64, the literal 63 is `CELLN - 1` for these constants, and 16-bit words hold 65536 values |
| `RomGeneration.CellValue` | scripts/ROM_generation.py:42-44 | `r * 64 + x` has the address x in its low six bits and the draw r above them, lies in [x, 1022 * 64 + x] and is below 2^16 |
| `RomGeneration.CellCodec` | scripts/ROM_generation.py:42-44 | encoding and decoding are inverse: every value below 1023 * 64 is the encoding of exactly one (draw, address) pair |
| `RomGeneration.CellValues` | scripts/ROM_generation.py:41-44 | one value per address, 64 in all, each with its address in the low six bits, its draw above them, and below 2^16 |
| `RomGeneration.RenderedWidths` | scripts/ROM_generation.py:31-59 | the widths written follow the constants: ports `5 downto 0` and `15 downto 0`, array `0 to 63`, `data_s` `15 downto 0`, conversion to 16 bits |
| `RomGeneration.Separator` | scripts/ROM_generation.py:46-52 | after address x: a comma exactly when x is not 63, a line break exactly when x % 8 == 7, and never a digit |
| `RomGeneration.Body` | scripts/ROM_generation.py:41-52 | the list is empty exactly when there are no values; its content is stated by the lemmas below |
| `RomGeneration.Separators` | scripts/ROM_generation.py:46-52 | the separators of the first n addresses in order, which contain no digit |
| `RomGeneration.Generate` | scripts/ROM_generation.py:22-64 | the file ends up holding exactly the header, the list of the 64 cell values and the footer, in that order, and nothing else |
| `RomGeneration.WriteRom` | scripts/ROM_generation.py:24-62 | the writes between opening and closing produce header, list and footer on an empty file |
| `RomGeneration.WriteHeader` | scripts/ROM_generation.py:24-39 | the sixteen header writes produce `Header()`, with the widths computed from the constants |
| `RomGeneration.WriteCells` | scripts/ROM_generation.py:41-52 | the loop appends `Body` of the cell values; its invariant is that after x turns the file ends with the list of the first x values |
| `RomGeneration.WriteCell` | scripts/ROM_generation.py:46-52 | one turn appends the value's decimal text and then its separator |
| `RomGeneration.WriteFooter` | scripts/ROM_generation.py:54-62 | the footer writes append `Footer()`, with the widths computed from `WORDL` |
| `RomGeneration.EntryWritten` | scripts/ROM_generation.py:46-52 | the branches on `x != 63` and `x % 8 == 7` together write the value followed by `Separator(x)` |
| `RomGeneration.BodyLast` | scripts/ROM_generation.py:41-52 | the list ends with the last value and its separator |
| `RomGeneration.BodyStep` | scripts/ROM_generation.py:41-52 | the list of the first x + 1 values is the list of the first x followed by value x and its separator |
| `RomGeneration.BodyNumbers` | scripts/ROM_generation.py:41-52 | splitting the list on separators and white space gives back the values, in address order |
| `RomGeneration.BodyEndsWithSeparator` | scripts/ROM_generation.py:46-52 | a non-empty list ends with a separator character, never with a digit |
| `RomGeneration.EntryNumbers` | scripts/ROM_generation.py:47-52 | a value followed by its separator reads back as that value alone |
| `RomGeneration.BodySeparatorCounts` | scripts/ROM_generation.py:46-52 | a list of n values holds n commas, minus one once address 63 is included, and n / 8 line breaks |
| `RomGeneration.SeparatorCountsStep` | scripts/ROM_generation.py:46-52 | adding value x to a list of x values adds that entry's commas and line breaks to the counts |
| `RomGeneration.EntrySeparatorCounts` | scripts/ROM_generation.py:46-52 | value x with its separator holds one comma unless x is 63, and one line break if x % 8 == 7 |
| `RomGeneration.DigitsHaveNoSeparators` | scripts/ROM_generation.py:47-49 | the decimal text of a value holds no comma and no line break |
| `RomGeneration.SeparatorCounts` | scripts/ROM_generation.py:46-52 | a separator holds one comma unless x is 63, and one line break if x % 8 == 7 |
| `RomGeneration.BodyShape` | scripts/ROM_generation.py:41-52 | with the digits deleted, the list is `Separators(n)`: its layout depends only on the number of values |
| `RomGeneration.SameLayout` | scripts/ROM_generation.py:24-62 | two runs with any draws write files that are equal once the digits are deleted: only the values differ |
| `RomGeneration.BodyPrefix` | scripts/ROM_generation.py:41-52 | the list of the first k values is a prefix of the whole list, so nothing written is changed later |
| `RomGeneration.EntryPlacement` | scripts/ROM_generation.py:41-52 | value x is written right after the values at lower addresses, followed by its own separator |
| `RomGeneration.RomBody` | scripts/ROM_generation.py:41-54 | the generated list reads back as 64 values in address order, each with its address in the low six bits, its draw above them and below 2^16; it holds 63 commas and 8 line breaks; it ends with the value at address 63 and a line break, with no comma |

## Left out

- `random.randrange(0, 1023)` (line 42) is not modelled as a random source. The draws are an input sequence of 64 numbers, each required to lie in [0, 1023).
- Opening the file and writing to disk are reduced to a text buffer. The path `src/ROM.vhd` is kept as the file's name. Failures to open or write (a missing `src` directory, no permission) are not modelled: the script does not handle them either.
- The meaning of the emitted VHDL is not modelled: the enable and high-impedance behaviour, and the second driver of `data_out` from the never-assigned `data_s` (lines 59-60). These lines are written as literal text only.
- The unused variable `val` (line 45) is not modelled: it is computed and never read.
- The literal 63 at line 46 is kept as the constant `LAST_INDEX`. It equals `CELLN - 1` only for `ADDRB = 6`, and `Constants` states exactly that.
- `OutputFile.OutFile.Close` does not model that later writes raise an error. `Write` requires an open file instead, and the script writes nothing after closing.
