/** The decisions inside the console prompts of lib/messages.rb. Console input
    is modelled as the sequence of lines the user types (already stripped of
    their newline, as `gets.chomp` does), read from a position onwards. */
module Messages {
  import opened Wrappers

  // ---------------------------------------------------------------------
  // Characters and numbers
  // ---------------------------------------------------------------------

  predicate IsDigit(c: char)
  {
    '0' <= c && c <= '9'
  }

  function DigitValue(c: char): nat
    requires IsDigit(c)
  {
    c as int - '0' as int
  }

  function DigitChar(n: nat): (c: char)
    requires n < 10
    ensures IsDigit(c) && DigitValue(c) == n
  {
    ('0' as int + n) as char
  }

  /** ASCII `downcase` of one character. */
  function Lower(c: char): char
  {
    if 'A' <= c && c <= 'Z' then (c as int - 'A' as int + 'a' as int) as char else c
  }

  /** ASCII `upcase` of one character. */
  function Upper(c: char): char
  {
    if 'a' <= c && c <= 'z' then (c as int - 'a' as int + 'A' as int) as char else c
  }

  function Downcase(s: string): (t: string)
    ensures |t| == |s| && forall i :: 0 <= i < |s| ==> t[i] == Lower(s[i])
  {
    seq(|s|, i requires 0 <= i < |s| => Lower(s[i]))
  }

  function Upcase(s: string): (t: string)
    ensures |t| == |s| && forall i :: 0 <= i < |s| ==> t[i] == Upper(s[i])
  {
    seq(|s|, i requires 0 <= i < |s| => Upper(s[i]))
  }

  /** The longest prefix of `s` made of decimal digits. */
  function DigitPrefix(s: string): (p: string)
    ensures p <= s
    ensures forall i :: 0 <= i < |p| ==> IsDigit(p[i])
    ensures |p| < |s| ==> !IsDigit(s[|p|])
  {
    if |s| == 0 || !IsDigit(s[0]) then []
    else [s[0]] + DigitPrefix(s[1..])
  }

  /** The value of a string of decimal digits, most significant first. */
  function DigitsValue(s: string): nat
    requires forall i :: 0 <= i < |s| ==> IsDigit(s[i])
  {
    if |s| == 0 then 0
    else 10 * DigitsValue(s[..|s| - 1]) + DigitValue(s[|s| - 1])
  }

  /** Ruby's `String#to_i`, simplified: an optional sign followed by the
      leading run of decimal digits; anything else reads as 0. */
  function ToI(s: string): (r: int)
    ensures (|s| > 0 && s[0] == '-') ==> r <= 0
    ensures !(|s| > 0 && s[0] == '-') ==> r >= 0
    ensures |s| == 0 || (!IsDigit(s[0]) && s[0] != '-' && s[0] != '+') ==> r == 0
    ensures r != 0 ==> exists k :: 0 <= k < |s| && IsDigit(s[k])
  {
    if |s| > 0 && s[0] == '-' then -(DigitsValue(DigitPrefix(s[1..])) as int)
    else if |s| > 0 && s[0] == '+' then DigitsValue(DigitPrefix(s[1..]))
    else DigitsValue(DigitPrefix(s))
  }

  /** The decimal numeral of `n`, without leading zeros. */
  function Numeral(n: nat): (s: string)
    ensures |s| > 0 && forall i :: 0 <= i < |s| ==> IsDigit(s[i])
    decreases n
  {
    if n < 10 then [DigitChar(n)] else Numeral(n / 10) + [DigitChar(n % 10)]
  }

  /** The digits of a numeral read back as the number. */
  lemma {:induction false} NumeralValue(n: nat)
    ensures DigitsValue(Numeral(n)) == n
    decreases n
  {
    var s := Numeral(n);
    if n >= 10 {
      NumeralValue(n / 10);
      assert s[..|s| - 1] == Numeral(n / 10);
    }
  }

  /** A string of digits is its own digit prefix. */
  lemma {:induction false} AllDigitsPrefix(s: string)
    requires forall i :: 0 <= i < |s| ==> IsDigit(s[i])
    ensures DigitPrefix(s) == s
  {
    if |s| > 0 {
      AllDigitsPrefix(s[1..]);
    }
  }

  /** `to_i` reads back the numeral of any natural number. */
  lemma ToINumeral(n: nat)
    ensures ToI(Numeral(n)) == n
  {
    AllDigitsPrefix(Numeral(n));
    NumeralValue(n);
  }

  // ---------------------------------------------------------------------
  // `input_column`
  // ---------------------------------------------------------------------

  /** What a turn prompt can yield: a zero-based column, or a command. */
  datatype Command = Column(index: int) | Save | Load | Quit

  /** One pass of `input_column`'s loop on the typed line: the line is
      lower-cased; a number from 1 to 7 becomes a zero-based column, and the
      letters s, l and q become commands. `None` means the line is rejected
      and the user is asked again. */
  function InputColumn(line: string): (r: Option<Command>)
    ensures (r.Some? && r.value.Column?) <==> 1 <= ToI(Downcase(line)) <= 7
    ensures r.Some? && r.value.Column? ==>
      0 <= r.value.index <= 6 && r.value.index + 1 == ToI(Downcase(line))
    ensures r == Some(Save) <==> Downcase(line) == "s"
    ensures r == Some(Load) <==> Downcase(line) == "l"
    ensures r == Some(Quit) <==> Downcase(line) == "q"
    ensures r.None? <==> !(1 <= ToI(Downcase(line)) <= 7) && Downcase(line) !in ["s", "l", "q"]
  {
    var input := Downcase(line);
    var n := ToI(input);
    assert ToI("s") == 0 && ToI("l") == 0 && ToI("q") == 0;
    if 1 <= n <= 7 then Some(Column(n - 1))
    else if input == "s" then Some(Save)
    else if input == "l" then Some(Load)
    else if input == "q" then Some(Quit)
    else None
  }

  /** Typing the one-based column number selects that column. */
  lemma ColumnNumeralRoundTrip(column: int)
    requires 0 <= column <= 6
    ensures InputColumn(Numeral(column + 1)) == Some(Column(column))
  {
    var s := Numeral(column + 1);
    assert Downcase(s) == s;
    ToINumeral(column + 1);
  }

  /** A line that starts with a letter reads as 0. */
  lemma LetterReadsZero(s: string)
    requires |s| > 0 && 'a' <= s[0] && s[0] <= 'z'
    ensures ToI(s) == 0
  {
  }

  /** The commands are accepted in either case. */
  lemma CommandsIgnoreCase()
    ensures InputColumn("S") == Some(Save) && InputColumn("s") == Some(Save)
    ensures InputColumn("L") == Some(Load) && InputColumn("l") == Some(Load)
    ensures InputColumn("Q") == Some(Quit) && InputColumn("q") == Some(Quit)
  {
    assert Downcase("S") == "s" && Downcase("s") == "s";
    assert Downcase("L") == "l" && Downcase("l") == "l";
    assert Downcase("Q") == "q" && Downcase("q") == "q";
  }

  /** Numbers outside 1..7 and other words are rejected. */
  lemma OtherInputRejected()
    ensures InputColumn("8") == None && InputColumn("0") == None
    ensures InputColumn("x") == None && InputColumn("save") == None
  {
    assert Downcase("8") == "8" && DigitPrefix("8") == "8";
    assert Downcase("0") == "0" && DigitPrefix("0") == "0";
    assert Downcase("x") == "x";
    LetterReadsZero("x");
    assert Downcase("save") == "save";
    LetterReadsZero("save");
  }

  // ---------------------------------------------------------------------
  // Prompts that repeat until the answer is acceptable
  // ---------------------------------------------------------------------

  /** An accepted answer and the position of the next unread line. */
  datatype Read<+T> = Read(value: T, next: nat)

  /** `COLORS`: the chip colours a player may pick. */
  const Colors: seq<string> := ["red", "green", "blue", "yellow", "cyan", "magenta"]

  /** `get_player_color`'s loop: the first line from `k` on that is one of
      `Colors`, exactly as typed. `None` when the input runs out first. */
  function ReadColor(lines: seq<string>, k: nat): (r: Option<Read<string>>)
    ensures r.Some? ==>
      && k < r.value.next <= |lines|
      && r.value.value == lines[r.value.next - 1]
      && r.value.value in Colors
      && forall m :: k <= m < r.value.next - 1 ==> lines[m] !in Colors
    ensures r.None? ==> forall m :: k <= m < |lines| ==> lines[m] !in Colors
    decreases |lines| - k
  {
    if k >= |lines| then None
    else if lines[k] in Colors then Some(Read(lines[k], k + 1))
    else ReadColor(lines, k + 1)
  }

  /** A colour typed on line `i`, after lines from `k` on that are not
      colours, is the one `ReadColor` accepts. */
  lemma {:induction false} ReadColorFinds(lines: seq<string>, k: nat, i: int)
    requires k <= i < |lines| && lines[i] in Colors
    requires forall m :: k <= m < i ==> lines[m] !in Colors
    ensures ReadColor(lines, k) == Some(Read(lines[i], i + 1))
    decreases i - k
  {
    if k < i {
      ReadColorFinds(lines, k + 1, i);
    }
  }

  /** `ReadColorFinds` for every line at once. */
  lemma ReadColorFirst(lines: seq<string>, k: nat)
    ensures forall i :: k <= i < |lines| && lines[i] in Colors && (forall m :: k <= m < i ==> lines[m] !in Colors) ==>
      ReadColor(lines, k) == Some(Read(lines[i], i + 1))
  {
    forall i | k <= i < |lines| && lines[i] in Colors && (forall m :: k <= m < i ==> lines[m] !in Colors)
      ensures ReadColor(lines, k) == Some(Read(lines[i], i + 1))
    {
      ReadColorFinds(lines, k, i);
    }
  }

  /** `main_menu`'s loop: the first line from `k` on whose upper-cased form is
      N, L or Q; the upper-cased form is returned. */
  function MainMenu(lines: seq<string>, k: nat): (r: Option<Read<string>>)
    ensures r.Some? ==>
      && k < r.value.next <= |lines|
      && r.value.value == Upcase(lines[r.value.next - 1])
      && r.value.value in ["N", "L", "Q"]
      && forall m :: k <= m < r.value.next - 1 ==> Upcase(lines[m]) !in ["N", "L", "Q"]
    ensures r.None? ==> forall m :: k <= m < |lines| ==> Upcase(lines[m]) !in ["N", "L", "Q"]
    decreases |lines| - k
  {
    if k >= |lines| then None
    else if Upcase(lines[k]) in ["N", "L", "Q"] then Some(Read(Upcase(lines[k]), k + 1))
    else MainMenu(lines, k + 1)
  }

  /** A menu answer is the upper-cased option letter, in either case. */
  lemma MenuAcceptsEitherCase()
    ensures MainMenu(["x", "n"], 0) == Some(Read("N", 2))
    ensures MainMenu(["l"], 0) == Some(Read("L", 1))
    ensures MainMenu(["quit", "Q"], 0) == Some(Read("Q", 2))
  {
    assert Upcase("x") == "X" && Upcase("n") == "N";
    assert Upcase("l") == "L";
    assert Upcase("quit") == "QUIT" && Upcase("Q") == "Q";
  }

  /** The four answers of `game_setup_msg`. */
  datatype SetupAnswers = SetupAnswers(name1: string, color1: string, name2: string, color2: string)

  /** The answers `a` sit in `lines` in the order they are asked for: player
      one's name on line 0, the accepted colour on line `i` after rejected
      ones, player two's name right after it, and player two's accepted
      colour on line `j`, again after rejected ones. */
  ghost predicate AskedInOrder(lines: seq<string>, a: SetupAnswers, i: int, j: int)
  {
    && 1 <= i && i + 1 < j < |lines|
    && lines[0] == a.name1 && lines[i] == a.color1
    && lines[i + 1] == a.name2 && lines[j] == a.color2
    && (forall m :: 1 <= m < i ==> lines[m] !in Colors)
    && (forall m :: i + 2 <= m < j ==> lines[m] !in Colors)
  }

  /** `game_setup_msg`: player one's name, then colour prompts until one is
      acceptable, then player two's name and colour, in that order. `None`
      when the input runs out first. */
  function GameSetupMsg(lines: seq<string>): (r: Option<SetupAnswers>)
    ensures r.Some? ==> r.value.color1 in Colors && r.value.color2 in Colors
    ensures r.Some? ==> exists i, j :: AskedInOrder(lines, r.value, i, j)
    ensures r.None? ==> forall a: SetupAnswers, i, j ::
      a.color1 in Colors && a.color2 in Colors ==> !AskedInOrder(lines, a, i, j)
  {
    ReadColorFirst(lines, 1);
    if |lines| == 0 then None
    else
      var c1 := ReadColor(lines, 1);
      ReadColorFirst(lines, if c1.Some? then c1.value.next + 1 else 0);
      if c1.None? || c1.value.next >= |lines| then None
      else
        var c2 := ReadColor(lines, c1.value.next + 1);
        if c2.None? then None
        else
          var a := SetupAnswers(lines[0], c1.value.value, lines[c1.value.next], c2.value.value);
          assert AskedInOrder(lines, a, c1.value.next - 1, c2.value.next - 1);
          Some(a)
  }

  /** Conversely, answers that sit in the input in the order asked are
      exactly what `game_setup_msg` returns. */
  lemma SetupAnswersRead(lines: seq<string>, a: SetupAnswers, i: int, j: int)
    requires a.color1 in Colors && a.color2 in Colors && AskedInOrder(lines, a, i, j)
    ensures GameSetupMsg(lines) == Some(a)
  {
    ReadColorFinds(lines, 1, i);
    ReadColorFinds(lines, i + 2, j);
  }

  /** The answers come back in the order they were asked for. */
  lemma SetupKeepsOrder()
    ensures GameSetupMsg(["player 1", "red", "player 2", "green"]) ==
      Some(SetupAnswers("player 1", "red", "player 2", "green"))
    ensures GameSetupMsg(["ann", "pink", "blue", "bob", "cyan"]) ==
      Some(SetupAnswers("ann", "blue", "bob", "cyan"))
  {
  }
}
