/** The client's numbered messages: a counter that starts again, and a buffer of thirteen characters. */
module Client {
  import opened Decimal
  import opened Numerals

  const DATA_SIZE := 13

  const LAST_COUNT := 999999

  function Symbol(digit: int): char {
    if digit == 0 then '0' else if digit == 1 then '1' else if digit == 2 then '2' else if digit == 3 then '3'
    else if digit == 4 then '4' else if digit == 5 then '5' else if digit == 6 then '6' else if digit == 7 then '7'
    else if digit == 8 then '8' else '9'
  }

  /** Digits as text, the most significant first. */
  function Text(digits: seq<int>): string {
    if digits == [] then "" else Text(digits[1..]) + [Symbol(digits[0])]
  }

  function Spaces(n: nat): string {
    if n == 0 then "" else Spaces(n - 1) + " "
  }

  /** What the format of the client makes of a count: the number takes at least six characters. */
  function Message(count: nat): string {
    var digits := Digits(count, 10);
    "msg " + Spaces(if |digits| < 6 then 6 - |digits| else 0) + Text(digits) + " \n"
  }

  lemma TextLength(digits: seq<int>)
    ensures |Text(digits)| == |digits|
  {
  }

  lemma SpacesLength(n: nat)
    ensures |Spaces(n)| == n
  {
  }

  lemma Million()
    ensures Pow(10, 6) == 1000000
  {
    assert Pow(10, 3) == 1000;
    PowAdds(10, 3, 3);
  }

  /** With its terminator, a message fits the buffer exactly for the counts that the counter lets through. */
  lemma MessageFits(count: nat)
    ensures |Message(count)| + 1 <= 13 <==> count <= 999999
    ensures count <= 999999 ==> |Message(count)| == 12
  {
    var digits := Digits(count, 10);
    TextLength(digits);
    SpacesLength(if |digits| < 6 then 6 - |digits| else 0);
    DigitsFit(count, 10, 6);
    Million();
  }

  lemma Blank(n: nat, i: nat)
    requires i < n
    ensures |Spaces(n)| == n && Spaces(n)[i] == ' '
  {
    SpacesLength(n - 1);
    if i < n - 1 {
      Blank(n - 1, i);
    }
  }

  lemma TextAt(digits: seq<int>, i: nat)
    requires i < |digits| && Limbs(10, digits)
    ensures |Text(digits)| == |digits| && Text(digits)[i] == Symbol(digits[|digits| - 1 - i])
    ensures '0' <= Text(digits)[i] <= '9' && (Text(digits)[i] == '0' <==> digits[|digits| - 1 - i] == 0)
  {
    TextLength(digits[1..]);
  }

  lemma {:induction false} TopDigit(x: nat, radix: nat)
    requires radix >= 2
    ensures Digits(x, radix) != [] && (Digits(x, radix)[|Digits(x, radix)| - 1] == 0 <==> x == 0)
  {
    if x >= radix {
      hide Digits;
      var rest, last := DigitsCut(x, radix);
      TopDigit(rest, radix);
    }
  }

  lemma OneDigit(count: nat)
    ensures count == 0 ==> |Digits(count, 10)| == 1
  {
  }

  /**
   * The form of a message: the label, spaces, the digits of the count without zeros in front, a space and a line
   * end. The digits end at the tenth column, or later if there are more than six; then no spaces are added.
   */
  lemma MessageFormat(count: nat) returns (first: nat, end: nat)
    ensures 4 <= first < end == |Message(count)| - 2
    ensures Message(count)[..4] == "msg " && Message(count)[end..] == " \n"
    ensures forall i :: 4 <= i < first ==> Message(count)[i] == ' '
    ensures forall i :: first <= i < end ==> '0' <= Message(count)[i] <= '9'
    ensures Message(count)[first] == '0' ==> count == 0 && end == first + 1
    ensures end >= 10 && (first > 4 ==> end == 10) && (count <= 999999 <==> end == 10)
  {
    hide Digits, Spaces, Text, Symbol;
    var digits := Digits(count, 10);
    var n := if |digits| < 6 then 6 - |digits| else 0;
    TextLength(digits);
    SpacesLength(n);
    DigitsVal(count, 10);
    TopDigit(count, 10);
    DigitsFit(count, 10, 6);
    Million();
    first, end := 4 + n, 4 + n + |digits|;
    forall i | 4 <= i < first ensures Message(count)[i] == ' ' {
      Blank(n, i - 4);
    }
    forall i | first <= i < end ensures '0' <= Message(count)[i] <= '9' {
      TextAt(digits, i - first);
    }
    TextAt(digits, 0);
    OneDigit(count);
  }

  /** The number in a text, read by skipping everything that is not a digit. */
  function Read(text: string): nat {
    if text == "" then 0
    else
      var n, last := Read(text[..|text| - 1]), text[|text| - 1];
      if '0' <= last <= '9' then 10 * n + (last as int - '0' as int) else n
  }

  lemma ReadAppend(text: string, last: char)
    ensures Read(text + [last])
         == if '0' <= last <= '9' then 10 * Read(text) + (last as int - '0' as int) else Read(text)
  {
    assert (text + [last])[..|text + [last]| - 1] == text;
  }

  lemma {:induction false} ReadSpaces(text: string, n: nat)
    ensures Read(text + Spaces(n)) == Read(text)
  {
    if n == 0 {
      assert text + Spaces(0) == text;
    } else {
      ReadSpaces(text, n - 1);
      ReadAppend(text + Spaces(n - 1), ' ');
      assert text + Spaces(n) == (text + Spaces(n - 1)) + [' '];
    }
  }

  lemma {:induction false} ReadText(text: string, digits: seq<int>)
    requires Read(text) == 0 && Limbs(10, digits)
    ensures Read(text + Text(digits)) == Val(10, digits)
  {
    if digits == [] {
      assert text + Text(digits) == text;
    } else {
      var rest := digits[1..];
      ReadText(text, rest);
      ReadAppend(text + Text(rest), Symbol(digits[0]));
      assert text + Text(digits) == (text + Text(rest)) + [Symbol(digits[0])];
      assert digits == [digits[0]] + rest;
      ValCons(10, digits[0], rest);
    }
  }

  lemma ReadLabel()
    ensures Read("msg ") == 0
  {
    assert "msg " == ((("" + ['m']) + ['s']) + ['g']) + [' '];
    ReadAppend("", 'm');
    ReadAppend("" + ['m'], 's');
    ReadAppend(("" + ['m']) + ['s'], 'g');
    ReadAppend((("" + ['m']) + ['s']) + ['g'], ' ');
  }

  /** A message carries its count: it can be read back, so different counts give different messages. */
  lemma MessageRoundTrip(count: nat)
    ensures Read(Message(count)) == count
  {
    var digits := Digits(count, 10);
    var spaces := Spaces(if |digits| < 6 then 6 - |digits| else 0);
    ReadLabel();
    ReadSpaces("msg ", if |digits| < 6 then 6 - |digits| else 0);
    DigitsVal(count, 10);
    ReadText("msg " + spaces, digits);
    var body := "msg " + spaces + Text(digits);
    ReadAppend(body, ' ');
    ReadAppend(body + [' '], '\n');
    assert Message(count) == (body + [' ']) + ['\n'];
  }

  class Task {
    const data: array<char>
    var count: nat

    ghost predicate Valid()
      reads this, data
    {
      data.Length == DATA_SIZE && count <= LAST_COUNT
    }

    constructor ()
      ensures Valid() && fresh(data) && count == 0
    {
      data := new char[DATA_SIZE];
      count := 0;
    }

    /** Composes the next message, with its terminator, and counts on. */
    method Compose()
      requires Valid()
      modifies this, data
      ensures Valid() && data[..] == Message(old(count)) + ['\0'] && count == (old(count) + 1) % 1000000
    {
      MessageFits(count);
      var text := Message(count) + ['\0'];
      forall i | 0 <= i < |text| {
        data[i] := text[i];
      }
      count := count + 1;
      if count > LAST_COUNT {
        count := 0;
      }
      assert data[..] == text;
    }
  }

  lemma NextCount(i: nat)
    ensures (i % 1000000 + 1) % 1000000 == (i + 1) % 1000000
  {
  }

  /** The messages composed by a fresh client, in order. */
  method ComposeMany(n: nat) returns (messages: seq<string>)
    ensures |messages| == n && forall i :: 0 <= i < n ==> messages[i] == Message(i % 1000000) + ['\0']
  {
    hide Message;
    messages := [];
    var task := new Task();
    for i := 0 to n
      invariant task.Valid() && fresh(task) && fresh(task.data) && task.count == i % 1000000 && |messages| == i
      invariant forall k :: 0 <= k < i ==> messages[k] == Message(k % 1000000) + ['\0']
    {
      NextCount(i);
      task.Compose();
      messages := messages + [task.data[..]];
    }
  }
}
