/**
 * The command-trace format read by `ReadCommandsFromFile`. Each line of the trace
 * holds an opcode, a logical block address and a transfer length in decimal and a
 * data word in hexadecimal, separated by spaces, tabs or newlines. This module
 * gives the line-level meaning shared by both harnesses: the `strtok` tokenizer,
 * the Microsoft C runtime numeral parsers `atoi`, `_strtoi64` and `strtoul`, the
 * accept/reject rule for a line, the partial writes a rejected line leaves in the
 * next command slot, and the table state after a whole trace.
 */
module CommandTrace {
  import opened Ints

  /** Capacity of the global `commands[]` table. */
  const MAX_COMMANDS: nat := 1000

  datatype Option<T> = None | Some(value: T)

  /** `IO_COMMAND`: opcode (0 read, otherwise write), address, length in bytes, payload. */
  datatype IoCommand = IoCommand(opcode: i32, lba: i64, length: u32, data: i64)

  /** A zero-initialised global table slot. */
  const ZeroCommand: IoCommand := IoCommand(0, 0, 0, 0)

  // ---------------------------------------------------------------------------
  // C strings and `strtok`
  // ---------------------------------------------------------------------------

  /** The part of a line buffer that `strlen` and `strtok` see: up to the first NUL. */
  function CString(line: string): (s: string)
    ensures |s| <= |line| && s == line[..|s|]
    ensures forall k :: 0 <= k < |s| ==> s[k] != '\0'
    ensures |s| < |line| ==> line[|s|] == '\0'
  {
    if |line| == 0 || line[0] == '\0' then [] else [line[0]] + CString(line[1..])
  }

  /** The delimiter set `" \t\n"` passed to `strtok`. */
  predicate IsDelimiter(c: char) {
    c == ' ' || c == '\t' || c == '\n'
  }

  /** A token: a nonempty run of non-delimiter characters. */
  predicate IsWord(w: string) {
    |w| > 0 && forall k :: 0 <= k < |w| ==> !IsDelimiter(w[k])
  }

  /** Length of the leading run of non-delimiter characters. */
  function RunLength(s: string): (n: nat)
    ensures n <= |s|
    ensures forall k :: 0 <= k < n ==> !IsDelimiter(s[k])
    ensures n < |s| ==> IsDelimiter(s[n])
  {
    if |s| == 0 || IsDelimiter(s[0]) then 0 else 1 + RunLength(s[1..])
  }

  /**
   * The tokens successive `strtok` calls return: delimiters are skipped, and each
   * token is a maximal run of non-delimiters.
   */
  function Tokens(s: string): (r: seq<string>)
    ensures forall i :: 0 <= i < |r| ==> IsWord(r[i])
    decreases |s|
  {
    if |s| == 0 then []
    else if IsDelimiter(s[0]) then Tokens(s[1..])
    else
      var n := RunLength(s);
      [s[..n]] + Tokens(s[n..])
  }

  /** A word is its own leading run when what follows it is empty or a delimiter. */
  lemma {:induction false} RunLengthOfWord(w: string, tail: string)
    requires forall k :: 0 <= k < |w| ==> !IsDelimiter(w[k])
    requires |tail| == 0 || IsDelimiter(tail[0])
    ensures RunLength(w + tail) == |w|
  {
    if |w| > 0 {
      assert (w + tail)[1..] == w[1..] + tail;
      RunLengthOfWord(w[1..], tail);
    } else {
      assert w + tail == tail;
    }
  }

  /** A word followed by a delimiter is the first token; tokenizing goes on after it. */
  lemma TokensAfterWord(w: string, d: char, rest: string)
    requires IsWord(w) && IsDelimiter(d)
    ensures Tokens(w + [d] + rest) == [w] + Tokens(rest)
  {
    var s := w + [d] + rest;
    RunLengthOfWord(w, [d] + rest);
    assert s == w + ([d] + rest);
    assert s[..|w|] == w;
    assert s[|w|..] == [d] + rest;
    assert ([d] + rest)[1..] == rest;
  }

  /** Each token is at least one character and consecutive tokens need a delimiter. */
  lemma {:induction false} TokensLengthBound(s: string)
    ensures 2 * |Tokens(s)| <= |s| + 1
    decreases |s|
  {
    if |s| == 0 {
    } else if IsDelimiter(s[0]) {
      TokensLengthBound(s[1..]);
    } else {
      var n := RunLength(s);
      if n == |s| {
        assert s[n..] == [];
      } else {
        assert s[n..][1..] == s[n + 1..];
        TokensLengthBound(s[n + 1..]);
      }
    }
  }

  /** Words written one after another, separated by spaces and ended by a newline. */
  function Unwords(ws: seq<string>): string {
    if |ws| == 0 then ""
    else if |ws| == 1 then ws[0] + "\n"
    else ws[0] + " " + Unwords(ws[1..])
  }

  /** Tokenizing undoes `Unwords`. */
  lemma {:induction false} TokensOfUnwords(ws: seq<string>)
    requires forall i :: 0 <= i < |ws| ==> IsWord(ws[i])
    ensures Tokens(Unwords(ws)) == ws
  {
    if |ws| == 1 {
      TokensAfterWord(ws[0], '\n', "");
      assert ws[0] + ['\n'] + "" == ws[0] + "\n";
    } else if |ws| > 1 {
      TokensOfUnwords(ws[1..]);
      TokensAfterWord(ws[0], ' ', Unwords(ws[1..]));
      assert ws[0] + [' '] + Unwords(ws[1..]) == ws[0] + " " + Unwords(ws[1..]);
      assert [ws[0]] + ws[1..] == ws;
    }
  }

  lemma {:induction false} UnwordsHasNoNul(ws: seq<string>)
    requires forall i :: 0 <= i < |ws| ==> forall k :: 0 <= k < |ws[i]| ==> ws[i][k] != '\0'
    ensures forall k :: 0 <= k < |Unwords(ws)| ==> Unwords(ws)[k] != '\0'
  {
    if |ws| > 1 {
      UnwordsHasNoNul(ws[1..]);
    }
  }

  lemma {:induction false} CStringWhole(s: string)
    requires forall k :: 0 <= k < |s| ==> s[k] != '\0'
    ensures CString(s) == s
  {
    if |s| > 0 {
      CStringWhole(s[1..]);
    }
  }

  // ---------------------------------------------------------------------------
  // Numerals as the Microsoft C runtime reads them
  // ---------------------------------------------------------------------------

  /** `isspace` in the C locale. */
  predicate IsSpace(c: char) {
    c == ' ' || c == '\t' || c == '\n' || c == '\U{0B}' || c == '\U{0C}' || c == '\r'
  }

  /** Value of a digit character in bases up to 36; 36 for a non-digit. */
  function DigitValue(c: char): (v: nat)
    ensures v <= 36
  {
    if '0' <= c <= '9' then c as int - '0' as int
    else if 'a' <= c <= 'z' then c as int - 'a' as int + 10
    else if 'A' <= c <= 'Z' then c as int - 'A' as int + 10
    else 36
  }

  /** Leading whitespace skipped by every numeral parser. */
  function SkipSpace(s: string): (r: string)
    ensures |r| <= |s| && r == s[|s| - |r|..]
    ensures |r| > 0 ==> !IsSpace(r[0])
  {
    if |s| > 0 && IsSpace(s[0]) then SkipSpace(s[1..]) else s
  }

  /** Number of leading characters that are digits in `base`. */
  function DigitCount(s: string, base: nat): (n: nat)
    ensures n <= |s|
  {
    if |s| > 0 && DigitValue(s[0]) < base then 1 + DigitCount(s[1..], base) else 0
  }

  /** The value of a digit string, most significant digit first. */
  function DigitsValue(s: string, base: nat): nat {
    if |s| == 0 then 0 else DigitsValue(s[..|s| - 1], base) * base + DigitValue(s[|s| - 1])
  }

  /** A scanned numeral: its sign and the value of its digits. */
  datatype Numeral = Numeral(negative: bool, magnitude: nat) {
    function Value(): int {
      if negative then -(magnitude as int) else magnitude
    }
  }

  /** Whether a string starts with the optional `0x`/`0X` prefix of base 16. */
  predicate HasHexPrefix(s: string) {
    |s| >= 2 && s[0] == '0' && (s[1] == 'x' || s[1] == 'X')
  }

  /**
   * The common front end of `atoi`, `_strtoi64` and `strtoul`: skip whitespace,
   * read an optional sign, in base 16 an optional `0x`/`0X`, then the longest run
   * of digits. A token with no digits reads as zero.
   */
  function Scan(token: string, base: nat): Numeral
    requires base == 10 || base == 16
  {
    var t := SkipSpace(token);
    var signed := |t| > 0 && (t[0] == '-' || t[0] == '+');
    var u := if signed then t[1..] else t;
    var v := if base == 16 && HasHexPrefix(u) then u[2..] else u;
    Numeral(signed && t[0] == '-', DigitsValue(v[..DigitCount(v, base)], base))
  }

  /** `atoi`: base 10, saturating at the limits of a 32-bit `int`. */
  function Atoi(token: string): (r: i32)
    ensures I32_MIN <= Scan(token, 10).Value() <= I32_MAX ==> r == Scan(token, 10).Value()
    ensures Scan(token, 10).Value() > I32_MAX ==> r == I32_MAX
    ensures Scan(token, 10).Value() < I32_MIN ==> r == I32_MIN
  {
    Clamp(Scan(token, 10).Value(), I32_MIN, I32_MAX)
  }

  /** `_strtoi64`: saturating at the limits of a signed 64-bit integer. */
  function StrToI64(token: string, base: nat): (r: i64)
    requires base == 10 || base == 16
    ensures I64_MIN <= Scan(token, base).Value() <= I64_MAX ==> r == Scan(token, base).Value()
    ensures Scan(token, base).Value() > I64_MAX ==> r == I64_MAX
    ensures Scan(token, base).Value() < I64_MIN ==> r == I64_MIN
  {
    Clamp(Scan(token, base).Value(), I64_MIN, I64_MAX)
  }

  /**
   * `strtoul` with a 32-bit `unsigned long`: a magnitude beyond `ULONG_MAX` gives
   * `ULONG_MAX`; otherwise a leading minus negates modulo 2^32.
   */
  function StrToUL(token: string): u32 {
    UnsignedLong(Scan(token, 10))
  }

  /** The value `strtoul` gives a scanned base-10 numeral. */
  function UnsignedLong(n: Numeral): (r: u32)
    ensures n.magnitude > U32_MAX ==> r == U32_MAX
    ensures n.magnitude <= U32_MAX && !n.negative ==> r == n.magnitude
    ensures n.magnitude <= U32_MAX && n.negative ==> (r + n.magnitude) % U32_MODULUS == 0
  {
    if n.magnitude > U32_MAX then U32_MAX
    else if n.negative then (if n.magnitude == 0 then 0 else U32_MODULUS - n.magnitude)
    else n.magnitude
  }

  // ---------------------------------------------------------------------------
  // One trace line
  // ---------------------------------------------------------------------------

  /**
   * A line is read under the guard `strlen(line) > 1`, and it yields a command
   * exactly when it has four tokens (the guard never rejects such a line): opcode
   * by `atoi`, address by `_strtoi64` in base 10, length by `strtoul` in base 10
   * and data by `_strtoi64` in base 16. Later tokens are never looked at.
   */
  function Decode(line: string): (r: Option<IoCommand>)
    ensures r.Some? <==> |Tokens(CString(line))| >= 4
    ensures r.Some? ==> var ts := Tokens(CString(line));
      r.value == IoCommand(Atoi(ts[0]), StrToI64(ts[1], 10), StrToUL(ts[2]), StrToI64(ts[3], 16))
  {
    var s := CString(line);
    TokensLengthBound(s);
    if |s| <= 1 then None
    else
      var ts := Tokens(s);
      if |ts| < 4 then None
      else Some(IoCommand(Atoi(ts[0]), StrToI64(ts[1], 10), StrToUL(ts[2]), StrToI64(ts[3], 16)))
  }

  /**
   * The next free slot after a line is processed: fields are stored one by one as
   * their tokens are found, so a line that runs out of tokens leaves the fields it
   * did reach overwritten while the count stays where it was.
   */
  function WriteLine(slot: IoCommand, line: string): (r: IoCommand)
    ensures Decode(line).Some? ==> r == Decode(line).value
    ensures |CString(line)| <= 1 || |Tokens(CString(line))| == 0 ==> r == slot
  {
    var s := CString(line);
    var ts := Tokens(s);
    if |s| <= 1 || |ts| == 0 then slot
    else
      var a := slot.(opcode := Atoi(ts[0]));
      if |ts| < 2 then a
      else
        var b := a.(lba := StrToI64(ts[1], 10));
        if |ts| < 3 then b
        else
          var c := b.(length := StrToUL(ts[2]));
          if |ts| < 4 then c else c.(data := StrToI64(ts[3], 16))
  }

  /**
   * The `strlen(line) <= 1` test never decides anything: four tokens need seven
   * characters, so a line the guard skips has fewer than four tokens anyway.
   */
  lemma LengthGuardRedundant(line: string)
    ensures |CString(line)| <= 1 ==> |Tokens(CString(line))| < 4
  {
    TokensLengthBound(CString(line));
  }

  /** Tokens after the fourth are ignored. */
  lemma ExtraTokensIgnored(line1: string, line2: string)
    requires |Tokens(CString(line1))| >= 4 && |Tokens(CString(line2))| >= 4
    requires Tokens(CString(line1))[..4] == Tokens(CString(line2))[..4]
    ensures Decode(line1) == Decode(line2)
  {
    LengthGuardRedundant(line1);
    LengthGuardRedundant(line2);
    var t1, t2 := Tokens(CString(line1)), Tokens(CString(line2));
    assert t1[0] == t1[..4][0] && t1[1] == t1[..4][1] && t1[2] == t1[..4][2] && t1[3] == t1[..4][3];
    assert t2[0] == t2[..4][0] && t2[1] == t2[..4][1] && t2[2] == t2[..4][2] && t2[3] == t2[..4][3];
  }

  /** What a token says never rejects a line: any four or more words are accepted. */
  lemma AnyWordsAccepted(ws: seq<string>)
    requires |ws| >= 4
    requires forall i :: 0 <= i < |ws| ==> IsWord(ws[i])
    requires forall i :: 0 <= i < |ws| ==> forall k :: 0 <= k < |ws[i]| ==> ws[i][k] != '\0'
    ensures Decode(Unwords(ws)).Some?
    ensures Tokens(CString(Unwords(ws))) == ws
  {
    UnwordsHasNoNul(ws);
    CStringWhole(Unwords(ws));
    TokensOfUnwords(ws);
    LengthGuardRedundant(Unwords(ws));
  }

  // ---------------------------------------------------------------------------
  // Writing numerals, for the round trip
  // ---------------------------------------------------------------------------

  /** The digit character for `d`, with upper-case letters as `%X` prints them. */
  function DigitChar(d: nat): (c: char)
    requires d < 16
    ensures DigitValue(c) == d
    ensures !IsSpace(c) && !IsDelimiter(c) && c != '\0' && c != '-' && c != '+' && c != 'x' && c != 'X'
  {
    if d < 10 then ('0' as int + d) as char else ('A' as int + d - 10) as char
  }

  /** The digits of `n` in `base`, most significant first, with no leading zeros. */
  function Digits(n: nat, base: nat): (s: string)
    requires base == 10 || base == 16
    ensures |s| > 0
    ensures forall k :: 0 <= k < |s| ==> DigitValue(s[k]) < base && !IsSpace(s[k])
    ensures forall k :: 0 <= k < |s| ==> !IsDelimiter(s[k]) && s[k] != '\0' && s[k] != '-' && s[k] != '+'
    ensures n >= base ==> DigitValue(s[0]) != 0
    decreases n
  {
    if n < base then [DigitChar(n)] else Digits(n / base, base) + [DigitChar(n % base)]
  }

  lemma {:induction false} DigitsValueOfDigits(n: nat, base: nat)
    requires base == 10 || base == 16
    ensures DigitsValue(Digits(n, base), base) == n
    decreases n
  {
    var s := Digits(n, base);
    if n >= base {
      assert s[..|s| - 1] == Digits(n / base, base);
      DigitsValueOfDigits(n / base, base);
    }
  }

  lemma {:induction false} DigitCountAll(s: string, base: nat)
    requires forall k :: 0 <= k < |s| ==> DigitValue(s[k]) < base
    ensures DigitCount(s, base) == |s|
  {
    if |s| > 0 {
      DigitCountAll(s[1..], base);
    }
  }

  /** A signed value written in `base`, with a leading `-` when negative. */
  function Signed(x: int, base: nat): string
    requires base == 10 || base == 16
  {
    if x < 0 then "-" + Digits(-x, base) else Digits(x, base)
  }

  lemma SignedIsWord(x: int, base: nat)
    requires base == 10 || base == 16
    ensures IsWord(Signed(x, base))
    ensures forall k :: 0 <= k < |Signed(x, base)| ==> Signed(x, base)[k] != '\0'
  {
  }

  /** A plain digit string scans as its value. */
  lemma ScanDigits(d: string, base: nat)
    requires base == 10 || base == 16
    requires |d| > 0 && forall k :: 0 <= k < |d| ==> DigitValue(d[k]) < base && !IsSpace(d[k])
    requires d[0] != '-' && d[0] != '+'
    ensures Scan(d, base) == Numeral(false, DigitsValue(d, base))
  {
    assert SkipSpace(d) == d;
    if |d| >= 2 {
      assert DigitValue(d[1]) < base;
    }
    DigitCountAll(d, base);
    assert d[..|d|] == d;
  }

  /** A minus sign followed by a digit string scans as its negation. */
  lemma ScanNegated(d: string, base: nat)
    requires base == 10 || base == 16
    requires |d| > 0 && forall k :: 0 <= k < |d| ==> DigitValue(d[k]) < base
    ensures Scan("-" + d, base) == Numeral(true, DigitsValue(d, base))
  {
    var s := "-" + d;
    assert s[0] == '-' && !IsSpace(s[0]);
    assert SkipSpace(s) == s;
    assert s[1..] == d;
    var v := if base == 16 && HasHexPrefix(d) then d[2..] else d;
    if |d| >= 2 {
      assert DigitValue(d[1]) < base;
    }
    assert v == d;
    DigitCountAll(d, base);
    assert d[..|d|] == d;
  }

  /** Every numeral parser reads back what `Signed` writes. */
  lemma ScanSigned(x: int, base: nat)
    requires base == 10 || base == 16
    ensures Scan(Signed(x, base), base).Value() == x
    ensures x >= 0 ==> Scan(Signed(x, base), base) == Numeral(false, x)
  {
    if x < 0 {
      DigitsValueOfDigits(-x, base);
      ScanNegated(Digits(-x, base), base);
    } else {
      DigitsValueOfDigits(x, base);
      ScanDigits(Digits(x, base), base);
    }
  }

  lemma AtoiSigned(x: i32)
    ensures Atoi(Signed(x, 10)) == x
  {
    ScanSigned(x, 10);
  }

  lemma StrToI64Signed(x: i64, base: nat)
    requires base == 10 || base == 16
    ensures StrToI64(Signed(x, base), base) == x
  {
    ScanSigned(x, base);
  }

  lemma StrToULDigits(x: u32)
    ensures StrToUL(Signed(x, 10)) == x
  {
    ScanSigned(x, 10);
  }

  /** A command as a trace line: decimal opcode, address and length, hexadecimal data. */
  function FormatCommand(c: IoCommand): string {
    Unwords([Signed(c.opcode, 10), Signed(c.lba, 10), Signed(c.length, 10), Signed(c.data, 16)])
  }

  /** Round trip: every command survives being written as a trace line and read back. */
  lemma DecodeFormat(c: IoCommand)
    ensures Decode(FormatCommand(c)) == Some(c)
  {
    var ws := [Signed(c.opcode, 10), Signed(c.lba, 10), Signed(c.length, 10), Signed(c.data, 16)];
    SignedIsWord(c.opcode, 10);
    SignedIsWord(c.lba, 10);
    SignedIsWord(c.length, 10);
    SignedIsWord(c.data, 16);
    AnyWordsAccepted(ws);
    assert Tokens(CString(FormatCommand(c))) == ws;
    AtoiSigned(c.opcode);
    StrToI64Signed(c.lba, 10);
    StrToULDigits(c.length);
    StrToI64Signed(c.data, 16);
  }

  // ---------------------------------------------------------------------------
  // The command table after a whole trace
  // ---------------------------------------------------------------------------

  /** The global table: its slots and `command_count`. */
  datatype Table = Table(slots: seq<IoCommand>, count: nat)

  /**
   * One iteration of the read loop. A full table reads no further line; otherwise
   * the line is written into slot `count`, and the count advances iff the line
   * yields a command.
   */
  function Step(t: Table, line: string): (r: Table)
    requires |t.slots| == MAX_COMMANDS && t.count <= MAX_COMMANDS
    ensures |r.slots| == MAX_COMMANDS && r.count <= MAX_COMMANDS
  {
    if t.count == MAX_COMMANDS then t
    else
      var slot := WriteLine(t.slots[t.count], line);
      Table(t.slots[t.count := slot], if Decode(line).Some? then t.count + 1 else t.count)
  }

  /** The table after the read loop has seen `lines`, starting from slots `init` and count 0. */
  function Load(lines: seq<string>, init: seq<IoCommand>): (r: Table)
    requires |init| == MAX_COMMANDS
    ensures |r.slots| == MAX_COMMANDS && r.count <= MAX_COMMANDS
  {
    if |lines| == 0 then Table(init, 0)
    else Step(Load(lines[..|lines| - 1], init), lines[|lines| - 1])
  }

  /** Reference definition: the commands of all accepted lines, in trace order. */
  function Accepted(lines: seq<string>): seq<IoCommand> {
    if |lines| == 0 then []
    else
      var prev := Accepted(lines[..|lines| - 1]);
      match Decode(lines[|lines| - 1])
      case Some(c) => prev + [c]
      case None => prev
  }

  /** What the read loop promises: the first `MAX_COMMANDS` accepted commands. */
  function ReadCommands(lines: seq<string>): (r: seq<IoCommand>)
    ensures |r| <= MAX_COMMANDS
  {
    var a := Accepted(lines);
    if |a| <= MAX_COMMANDS then a else a[..MAX_COMMANDS]
  }

  /** Every accepted command is the decoding of some line. */
  lemma {:induction false} AcceptedFromLines(lines: seq<string>, i: nat)
    requires i < |Accepted(lines)|
    ensures exists j :: 0 <= j < |lines| && Decode(lines[j]) == Some(Accepted(lines)[i])
  {
    var init := lines[..|lines| - 1];
    var prev := Accepted(init);
    if i < |prev| {
      AcceptedFromLines(init, i);
      var j :| 0 <= j < |init| && Decode(init[j]) == Some(prev[i]);
      assert lines[j] == init[j];
    } else {
      assert Decode(lines[|lines| - 1]) == Some(Accepted(lines)[i]);
    }
  }

  /**
   * The table after the loop holds exactly the commands `ReadCommands` names in
   * its first `count` slots, and no slot beyond `count` has been written.
   */
  lemma {:induction false} LoadMeaning(lines: seq<string>, init: seq<IoCommand>)
    requires |init| == MAX_COMMANDS
    ensures Load(lines, init).count == |ReadCommands(lines)|
    ensures Load(lines, init).slots[..Load(lines, init).count] == ReadCommands(lines)
    ensures forall k :: Load(lines, init).count < k < MAX_COMMANDS ==> Load(lines, init).slots[k] == init[k]
  {
    if |lines| > 0 {
      var before := lines[..|lines| - 1];
      LoadMeaning(before, init);
      var t := Load(before, init);
      var a := Accepted(before);
      if t.count == MAX_COMMANDS {
        assert |a| >= MAX_COMMANDS;
        assert Accepted(lines)[..MAX_COMMANDS] == a[..MAX_COMMANDS];
      } else {
        assert ReadCommands(before) == a;
        StepMeaning(t, lines[|lines| - 1]);
      }
    }
  }

  /** A step below capacity appends the line's command, if any, and writes no later slot. */
  lemma StepMeaning(t: Table, line: string)
    requires |t.slots| == MAX_COMMANDS && t.count < MAX_COMMANDS
    ensures var r := Step(t, line);
      r.slots[..r.count] == t.slots[..t.count] + (if Decode(line).Some? then [Decode(line).value] else [])
    ensures var r := Step(t, line);
      forall k :: r.count < k < MAX_COMMANDS ==> r.slots[k] == t.slots[k]
  {
    var slot := WriteLine(t.slots[t.count], line);
    SlotUpdate(t.slots, t.count, slot);
    assert Step(t, line).slots == t.slots[t.count := slot];
  }

  /** Writing slot `i` keeps the slots before it and every slot after it. */
  lemma SlotUpdate(s: seq<IoCommand>, i: nat, v: IoCommand)
    requires i < |s|
    ensures s[i := v][..i] == s[..i]
    ensures s[i := v][..i + 1] == s[..i] + [v]
    ensures forall k :: i < k < |s| ==> s[i := v][k] == s[k]
  {
  }

  /** The read loop's state after line `k` is one `Step` from its state before it. */
  lemma LoadNext(lines: seq<string>, init: seq<IoCommand>, k: nat)
    requires |init| == MAX_COMMANDS && k < |lines|
    ensures Load(lines[..k + 1], init) == Step(Load(lines[..k], init), lines[k])
  {
    assert lines[..k + 1][..k] == lines[..k];
  }

  /** When the loop stops, at the end of the trace or with a full table, its state is `Load(lines)`. */
  lemma LoadStops(lines: seq<string>, init: seq<IoCommand>, k: nat)
    requires |init| == MAX_COMMANDS && k <= |lines|
    requires k == |lines| || Load(lines[..k], init).count == MAX_COMMANDS
    ensures Load(lines, init) == Load(lines[..k], init)
  {
    if k < |lines| {
      LoadSaturated(lines, init, k);
    } else {
      assert lines[..k] == lines;
    }
  }

  /** Once the table is full, the loop reads nothing more: later lines change nothing. */
  lemma {:induction false} LoadSaturated(lines: seq<string>, init: seq<IoCommand>, k: nat)
    requires |init| == MAX_COMMANDS && k <= |lines|
    requires Load(lines[..k], init).count == MAX_COMMANDS
    ensures Load(lines, init) == Load(lines[..k], init)
    decreases |lines| - k
  {
    if k < |lines| {
      assert lines[..k + 1][..k] == lines[..k];
      LoadSaturated(lines, init, k + 1);
    } else {
      assert lines[..k] == lines;
    }
  }

  /** A trace has an accepted line. */
  predicate SomeLineAccepted(lines: seq<string>) {
    exists j :: 0 <= j < |lines| && Decode(lines[j]).Some?
  }

  /** An accepted line anywhere in the trace contributes to `Accepted`. */
  lemma {:induction false} AcceptedNonempty(lines: seq<string>, j: nat)
    requires j < |lines| && Decode(lines[j]).Some?
    ensures |Accepted(lines)| > 0
  {
    var before := lines[..|lines| - 1];
    AcceptedLast(lines);
    if j < |before| {
      assert before[j] == lines[j];
      AcceptedNonempty(before, j);
    }
  }

  /** The last line adds one command to `Accepted` iff it decodes. */
  lemma AcceptedLast(lines: seq<string>)
    requires |lines| > 0
    ensures |Accepted(lines)| == |Accepted(lines[..|lines| - 1])| + (if Decode(lines[|lines| - 1]).Some? then 1 else 0)
  {
  }

  /** The loop reads at least one command iff some line of the trace is accepted. */
  lemma ReadSomethingIff(lines: seq<string>)
    ensures |ReadCommands(lines)| > 0 <==> SomeLineAccepted(lines)
  {
    if |ReadCommands(lines)| > 0 {
      AcceptedFromLines(lines, 0);
    }
    if SomeLineAccepted(lines) {
      var j :| 0 <= j < |lines| && Decode(lines[j]).Some?;
      AcceptedNonempty(lines, j);
    }
  }
}
