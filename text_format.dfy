/**
 * String formatting used by the runner: Python's `" ".join(parts)` for a
 * list-valued command, and the `%d` conversion of a return code inside a
 * status message. The `%d` rendering has a full inverse, `ParseDecimal`.
 * The join does not: splitting on spaces gives back each word's own pieces,
 * and gives back the words themselves only when no word contains a space.
 */
module TextFormat {

  /** Python's `" ".join(parts)`: the parts separated by single spaces. */
  function JoinWords(parts: seq<string>): (r: string)
    ensures |parts| == 1 ==> r == parts[0]
    ensures parts == [] ==> r == ""
    ensures |parts| > 0 ==> |r| >= |parts[0]| && r[..|parts[0]|] == parts[0]
    ensures |parts| > 1 ==> |r| > |parts[0]| && r[|parts[0]|] == ' '
  {
    if |parts| == 0 then ""
    else if |parts| == 1 then parts[0]
    else parts[0] + " " + JoinWords(parts[1..])
  }

  /** Python's `s.split(" ")`: the maximal space-free pieces between single spaces. */
  function SplitOnSpace(s: string): (r: seq<string>)
    ensures |r| > 0
  {
    if |s| == 0 then [""]
    else
      var rest := SplitOnSpace(s[1..]);
      if s[0] == ' ' then [""] + rest
      else [[s[0]] + rest[0]] + rest[1..]
  }

  predicate NoSpace(w: string) {
    forall i :: 0 <= i < |w| ==> w[i] != ' '
  }

  /** A space-free prefix glues onto the first piece of what follows it. */
  lemma {:induction false} SplitAfterWord(w: string, t: string)
    requires NoSpace(w)
    ensures SplitOnSpace(w + t) == [w + SplitOnSpace(t)[0]] + SplitOnSpace(t)[1..]
    decreases |w|
  {
    if |w| > 0 {
      assert (w + t)[1..] == w[1..] + t;
      assert NoSpace(w[1..]) by {
        forall i | 0 <= i < |w[1..]| ensures w[1..][i] != ' ' {
          assert w[1..][i] == w[i + 1];
        }
      }
      SplitAfterWord(w[1..], t);
      assert [w[0]] + (w[1..] + SplitOnSpace(t)[0]) == w + SplitOnSpace(t)[0];
    } else {
      assert w == "";
      assert w + t == t;
      assert w + SplitOnSpace(t)[0] == SplitOnSpace(t)[0];
    }
  }

  /**
   * Joining space-free words and splitting the result again gives back the
   * words: the joined command line keeps every word of a list-valued command.
   */
  lemma {:induction false} SplitJoinRoundTrip(parts: seq<string>)
    requires |parts| > 0
    ensures (forall k :: 0 <= k < |parts| ==> NoSpace(parts[k])) ==> SplitOnSpace(JoinWords(parts)) == parts
    decreases |parts|
  {
    if exists k :: 0 <= k < |parts| && !NoSpace(parts[k]) {
    } else if |parts| == 1 {
      SplitAfterWord(parts[0], "");
      assert parts[0] + "" == parts[0];
    } else {
      var tail := JoinWords(parts[1..]);
      SplitJoinRoundTrip(parts[1..]);
      assert parts[0] + " " + tail == parts[0] + (" " + tail);
      SplitAfterWord(parts[0], " " + tail);
      assert (" " + tail)[1..] == tail;
      assert SplitOnSpace(" " + tail) == [""] + parts[1..];
      assert parts[0] + "" == parts[0];
    }
  }

  /** The pieces of each string in turn, as `s.split(" ")` gives them. */
  function SplitEach(parts: seq<string>): (r: seq<string>)
    ensures |r| >= |parts|
  {
    if parts == [] then [] else SplitOnSpace(parts[0]) + SplitEach(parts[1..])
  }

  /** Splitting at a single space splits each side on its own. */
  lemma {:induction false} SplitAroundSpace(a: string, b: string)
    ensures SplitOnSpace(a + " " + b) == SplitOnSpace(a) + SplitOnSpace(b)
    decreases |a|
  {
    if |a| == 0 {
      assert a + " " + b == " " + b;
      assert (" " + b)[1..] == b;
    } else {
      assert (a + " " + b)[1..] == a[1..] + " " + b;
      SplitAroundSpace(a[1..], b);
    }
  }

  /**
   * Splitting the space-joined list on spaces gives the pieces of each
   * part in turn: a word that itself holds spaces comes back as its
   * pieces, never merged with its neighbours.
   */
  lemma {:induction false} SplitJoin(parts: seq<string>)
    requires |parts| > 0
    ensures SplitOnSpace(JoinWords(parts)) == SplitEach(parts)
    decreases |parts|
  {
    if |parts| == 1 {
      assert SplitEach(parts) == SplitOnSpace(parts[0]) + SplitEach([]);
    } else {
      SplitJoin(parts[1..]);
      SplitAroundSpace(parts[0], JoinWords(parts[1..]));
    }
  }

  // ---------------------------------------------------------------------
  // Decimal rendering of an integer, as Python's "%d" produces it.

  function DigitChar(d: nat): (c: char)
    requires d < 10
    ensures '0' <= c <= '9'
  {
    "0123456789"[d]
  }

  function DigitValue(c: char): nat {
    if '0' <= c <= '9' then c as int - '0' as int else 0
  }

  /** The decimal digits of `n`, most significant first, no leading zeros. */
  function Digits(n: nat): (r: string)
    ensures |r| > 0
    ensures forall i :: 0 <= i < |r| ==> '0' <= r[i] <= '9'
  {
    if n < 10 then [DigitChar(n)] else Digits(n / 10) + [DigitChar(n % 10)]
  }

  /** Python's `"%d" % n`: a minus sign for negative numbers, then the digits. */
  function DecimalString(n: int): (r: string)
    ensures |r| > 0
    ensures r[0] == '-' <==> n < 0
    ensures forall i :: (if n < 0 then 1 else 0) <= i < |r| ==> '0' <= r[i] <= '9'
    ensures n < 0 ==> |r| > 1
  {
    if n < 0 then "-" + Digits(-n) else Digits(n)
  }

  function ParseDigits(s: string): nat {
    if |s| == 0 then 0
    else ParseDigits(s[..|s| - 1]) * 10 + DigitValue(s[|s| - 1])
  }

  function ParseDecimal(s: string): int {
    if |s| > 0 && s[0] == '-' then -(ParseDigits(s[1..]) as int) else ParseDigits(s)
  }

  lemma {:induction false} DigitsRoundTrip(n: nat)
    ensures ParseDigits(Digits(n)) == n
  {
    if n < 10 {
      assert "0123456789"[n] as int == '0' as int + n;
    } else {
      var s := Digits(n);
      assert s[..|s| - 1] == Digits(n / 10);
      DigitsRoundTrip(n / 10);
      assert "0123456789"[n % 10] as int == '0' as int + n % 10;
    }
  }

  /** The `%d` rendering can be read back: distinct numbers give distinct text. */
  lemma {:induction false} DecimalRoundTrip(n: int)
    ensures ParseDecimal(DecimalString(n)) == n
  {
    var d := Digits(if n < 0 then -n else n);
    DigitsRoundTrip(if n < 0 then -n else n);
    if n < 0 {
      assert DecimalString(n) == "-" + d;
      assert ("-" + d)[1..] == d;
    } else {
      assert DecimalString(n) == d && '0' <= d[0] <= '9';
    }
  }
}
