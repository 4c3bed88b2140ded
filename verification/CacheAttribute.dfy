/** The file attribute in which the file server keeps a content hash together with the
    modification time and size for which it holds. */
module CacheAttribute {
  import opened Basics

  datatype Entry = Entry(hash: string, sec: int, nsec: int, size: int)

  const BILLION := 1_000_000_000
  const MAX_INT64 := 0x7fff_ffff_ffff_ffff

  predicate IsInt64(n: int)
  {
    -MAX_INT64 - 1 <= n <= MAX_INT64
  }

  // ----- Decimal numbers -------------------------------------------------------------------

  function Digit(d: nat): char
    requires d < 10
  {
    '0' + d as char
  }

  predicate IsDigit(c: char)
  {
    '0' <= c <= '9'
  }

  function Digits(n: nat): (s: string)
    ensures s != "" && forall i :: 0 <= i < |s| ==> IsDigit(s[i])
  {
    if n < 10 then [Digit(n)] else Digits(n / 10) + [Digit(n % 10)]
  }

  function Print(n: int): string
  {
    if n < 0 then "-" + Digits(-n) else Digits(n)
  }

  function Value(s: string): Option<nat>
  {
    if s == "" then Some(0)
    else
      var last := s[|s| - 1];
      match Value(s[..|s| - 1])
      case None => None
      case Some(v) => if IsDigit(last) then Some(10 * v + (last - '0') as nat) else None
  }

  /** A decimal number with an optional sign that fits in 64 bits. */
  function ParseInt(s: string): Option<int>
  {
    if s == "" then None
    else
      var sign := s[0] == '-' || s[0] == '+';
      var digits := if sign then s[1..] else s;
      if digits == "" then None
      else match Value(digits)
        case None => None
        case Some(v) =>
          var n: int := v;
          var signed := if s[0] == '-' then -n else n;
          if IsInt64(signed) then Some(signed) else None
  }

  lemma {:induction false} ValueOfDigits(n: nat)
    ensures Value(Digits(n)) == Some(n)
    decreases n
  {
    var s := Digits(n);
    if n < 10 {
      assert s[..0] == "" && Value("") == Some(0);
    } else {
      ValueOfDigits(n / 10);
      assert s[..|s| - 1] == Digits(n / 10);
    }
  }

  function Pow10(i: nat): (r: nat)
    ensures r >= 1
  {
    if i == 0 then 1 else 10 * Pow10(i - 1)
  }

  /** The digits are decimal, the last one counting ones. */
  lemma {:induction false} DigitAt(n: nat, i: nat)
    requires i < |Digits(n)|
    ensures Digits(n)[|Digits(n)| - 1 - i] == Digit(n / Pow10(i) % 10)
    decreases n
  {
    if n >= 10 && i > 0 {
      DigitAt(n / 10, i - 1);
      DivideTwice(n, 10, Pow10(i - 1));
    }
  }

  lemma ParseUnsigned(s: string, v: int)
    requires s != "" && IsDigit(s[0]) && v >= 0 && Value(s) == Some(v) && IsInt64(v)
    ensures ParseInt(s) == Some(v)
  {
  }

  lemma ParseNegative(s: string, v: int)
    requires s != "" && v >= 0 && Value(s) == Some(v) && IsInt64(-v)
    ensures ParseInt("-" + s) == Some(-v)
  {
    assert ("-" + s)[1..] == s;
  }

  lemma ParsePositive(s: string, v: int)
    requires s != "" && v >= 0 && Value(s) == Some(v) && IsInt64(v)
    ensures ParseInt("+" + s) == Some(v)
  {
    assert ("+" + s)[1..] == s;
  }

  lemma {:induction false} ValueIff(s: string)
    ensures Value(s).Some? <==> forall i :: 0 <= i < |s| ==> IsDigit(s[i])
  {
    if s != "" {
      ValueIff(s[..|s| - 1]);
    }
  }

  /** `s` is an optional sign and the given digits, and fits in 64 bits. */
  predicate IsNumber(s: string, digits: string)
  {
    && digits != "" && Value(digits).Some?
    && var v: int := Value(digits).value;
      ((s == digits || s == "+" + digits) && IsInt64(v)) || (s == "-" + digits && IsInt64(-v))
  }

  /** What is accepted is an optional sign and then digits, at least one, and fits in 64 bits. */
  lemma ParsesIff(s: string)
    ensures ParseInt(s).Some? <==> exists digits :: IsNumber(s, digits)
  {
    if ParseInt(s).Some? {
      var digits := if s[0] == '-' || s[0] == '+' then s[1..] else s;
      assert s[0] == '-' || s[0] == '+' ==> s == [s[0]] + digits;
      assert IsNumber(s, digits);
    } else if digits :| IsNumber(s, digits) {
      NumberParses(s, digits);
    }
  }

  lemma NumberParses(s: string, digits: string)
    requires IsNumber(s, digits)
    ensures ParseInt(s).Some?
  {
    var v: int := Value(digits).value;
    ValueIff(digits);
    if s == digits {
      assert |s| != |"-" + digits|;
      ParseUnsigned(digits, v);
    } else if s == "+" + digits {
      assert s[0] == '+' && ("-" + digits)[0] == '-';
      ParsePositive(digits, v);
    } else {
      ParseNegative(digits, v);
    }
  }

  lemma ParsePrinted(n: int)
    requires IsInt64(n)
    ensures ParseInt(Print(n)) == Some(n)
  {
    if n < 0 {
      ValueOfDigits(-n);
      ParseNegative(Digits(-n), -n);
    } else {
      ValueOfDigits(n);
      ParseUnsigned(Digits(n), n);
    }
  }

  lemma PrintedHasNo(n: int, c: char)
    requires !IsDigit(c) && c != '-'
    ensures c !in Print(n)
  {
  }

  // ----- Fields ----------------------------------------------------------------------------

  function Split(s: string, sep: char): (r: seq<string>)
    ensures |r| >= 1
  {
    if s == "" then [""]
    else
      var rest := Split(s[1..], sep);
      if s[0] == sep then [""] + rest else [[s[0]] + rest[0]] + rest[1..]
  }

  lemma {:induction false} SplitWord(a: string, sep: char)
    requires sep !in a
    ensures Split(a, sep) == [a]
    decreases |a|
  {
    if a != "" {
      assert a[0] in a;
      SplitWord(a[1..], sep);
      assert [a[0]] + a[1..] == a;
    }
  }

  lemma {:induction false} SplitFirst(a: string, sep: char, b: string)
    requires sep !in a
    ensures Split(a + [sep] + b, sep) == [a] + Split(b, sep)
    decreases |a|
  {
    var s := a + [sep] + b;
    if a == "" {
      assert s[1..] == b;
    } else {
      assert a[0] in a && s[1..] == a[1..] + [sep] + b;
      SplitFirst(a[1..], sep, b);
      assert [a[0]] + a[1..] == a;
    }
  }

  function Format(e: Entry): string
  {
    "1" + ":" + (e.hash + ":" + ((Print(e.sec) + "." + Print(e.nsec)) + ":" + Print(e.size)))
  }

  /** Nanoseconds outside their range are carried into the seconds. */
  function Normal(hash: string, sec: int, nsec: int, size: int): Entry
  {
    Entry(hash, sec + nsec / BILLION, nsec % BILLION, size)
  }

  /** The carry leaves the time as it is. */
  lemma NormalKeepsTime(hash: string, sec: int, nsec: int, size: int)
    ensures var e := Normal(hash, sec, nsec, size);
      && e.sec * BILLION + e.nsec == sec * BILLION + nsec && 0 <= e.nsec < BILLION
      && e.hash == hash && e.size == size
  {
  }

  function Decode(s: string): Option<Entry>
  {
    var parts := Split(s, ':');
    if |parts| != 4 || |parts[1]| != 64 || parts[0] != "1" then None
    else
      var time := Split(parts[2], '.');
      if |time| != 2 then None
      else
        var sec, nsec, size := ParseInt(time[0]), ParseInt(time[1]), ParseInt(parts[3]);
        if sec.None? || nsec.None? || size.None? then None
        else Some(Normal(parts[1], sec.value, nsec.value, size.value))
  }

  lemma SplitTime(sec: int, nsec: int)
    ensures Split(Print(sec) + "." + Print(nsec), '.') == [Print(sec), Print(nsec)]
    ensures ':' !in Print(sec) + "." + Print(nsec)
  {
    PrintedHasNo(sec, '.');
    PrintedHasNo(nsec, '.');
    PrintedHasNo(sec, ':');
    PrintedHasNo(nsec, ':');
    SplitFirst(Print(sec), '.', Print(nsec));
    SplitWord(Print(nsec), '.');
  }

  lemma SplitEntry(e: Entry)
    requires ':' !in e.hash
    ensures Split(Format(e), ':') == ["1", e.hash, Print(e.sec) + "." + Print(e.nsec), Print(e.size)]
  {
    var time, size := Print(e.sec) + "." + Print(e.nsec), Print(e.size);
    SplitTime(e.sec, e.nsec);
    PrintedHasNo(e.size, ':');
    SplitWord(size, ':');
    SplitFirst(time, ':', size);
    SplitFirst(e.hash, ':', time + ":" + size);
    SplitFirst("1", ':', e.hash + ":" + (time + ":" + size));
  }

  /** A printed entry is read back, whatever the time and size. */
  lemma EntryRoundTrip(e: Entry)
    requires |e.hash| == 64 && ':' !in e.hash
    requires IsInt64(e.sec) && 0 <= e.nsec < BILLION && IsInt64(e.size)
    ensures Decode(Format(e)) == Some(e)
  {
    SplitEntry(e);
    SplitTime(e.sec, e.nsec);
    ParsePrinted(e.sec);
    ParsePrinted(e.nsec);
    ParsePrinted(e.size);
  }

  lemma {:induction false} SplitHead(s: string, sep: char) returns (tail: string)
    ensures var parts := Split(s, sep);
      && (|parts| == 1 ==> parts[0] == s)
      && (|parts| > 1 ==> s == parts[0] + [sep] + tail && Split(tail, sep) == parts[1..])
    decreases |s|
  {
    tail := "";
    if s != "" {
      tail := SplitHead(s[1..], sep);
      var rest := Split(s[1..], sep);
      assert s == [s[0]] + s[1..];
      if s[0] == sep {
        tail := s[1..];
        assert s == "" + [sep] + tail;
      } else if |rest| > 1 {
        assert [s[0]] + (rest[0] + [sep] + tail) == ([s[0]] + rest[0]) + [sep] + tail;
      }
    }
  }

  /** Whatever is read starts with the version and a hash of 64 characters, and its
      nanoseconds are less than a second. */
  lemma DecodedEntry(s: string)
    requires Decode(s).Some?
    ensures var e := Decode(s).value;
      |e.hash| == 64 && 0 <= e.nsec < BILLION && "1:" + e.hash + ":" <= s
  {
    var hash := Decode(s).value.hash;
    var rest := SplitHead(s, ':');
    var tail := SplitHead(rest, ':');
    assert s == "1" + [':'] + rest && rest == hash + [':'] + tail;
    assert s == "1:" + hash + ":" + tail;
  }
}
