/**
 The pure helpers of the page script that main.py serves: `formatTime`, and
 the trim-and-non-empty checks of `connectWebSocket` and `sendMessage`.
 DOM access becomes parameters and results: the text of an input field goes
 in, and what the helper does with it comes out.
 */
module PageScript {
  import opened Wrappers

  // ---------------------------------------------------------------------
  // Decimal digits, as `Number.prototype.toString()` writes them

  predicate IsDigit(c: char)
  {
    '0' <= c <= '9'
  }

  predicate AllDigits(s: string)
  {
    forall i :: 0 <= i < |s| ==> IsDigit(s[i])
  }

  function DigitValue(c: char): (d: nat)
    requires IsDigit(c)
    ensures d < 10
  {
    (c as int) - ('0' as int)
  }

  function Digit(d: nat): (c: char)
    requires d < 10
    ensures IsDigit(c) && DigitValue(c) == d
  {
    ((('0' as int) + d) as char)
  }

  /** `n.toString()` for a non-negative integer: its decimal digits, without leading zeros. */
  function Decimal(n: nat): (r: string)
    decreases n
    ensures |r| >= 1 && AllDigits(r)
    ensures |r| > 1 ==> r[0] != '0'
    ensures n < 10 ==> |r| == 1
    ensures 10 <= n < 100 ==> |r| == 2
  {
    if n < 10 then [Digit(n)] else Decimal(n / 10) + [Digit(n % 10)]
  }

  /** The number a string of decimal digits denotes. */
  function Value(s: string): nat
    requires AllDigits(s)
    decreases |s|
  {
    if s == [] then 0 else 10 * Value(s[..|s| - 1]) + DigitValue(s[|s| - 1])
  }

  /** Reading back what `toString` writes gives the number again. */
  lemma {:induction false} ValueOfDecimal(n: nat)
    decreases n
    ensures Value(Decimal(n)) == n
  {
    if n >= 10 {
      var r := Decimal(n);
      ValueOfDecimal(n / 10);
      assert r[..|r| - 1] == Decimal(n / 10);
    }
  }

  /** `s.padStart(width, fill)` with a one-character fill. */
  function PadStart(s: string, width: nat, fill: char): (r: string)
    ensures |r| == if |s| < width then width else |s|
    ensures r[|r| - |s|..] == s
    ensures forall i :: 0 <= i < |r| - |s| ==> r[i] == fill
  {
    if |s| < width then seq(width - |s|, _ => fill) + s else s
  }

  /** The minutes field, `minutes.toString().padStart(2, '0')`. */
  function MinuteField(minutes: int): string
    requires 0 <= minutes < 60
  {
    PadStart(Decimal(minutes), 2, '0')
  }

  /** The minutes field is always exactly two digits, and they spell the minutes. */
  lemma MinuteFieldTwoDigits(minutes: int)
    requires 0 <= minutes < 60
    ensures |MinuteField(minutes)| == 2 && AllDigits(MinuteField(minutes))
    ensures Value(MinuteField(minutes)) == minutes
  {
    var d := Decimal(minutes);
    var r := MinuteField(minutes);
    ValueOfDecimal(minutes);
    if minutes < 10 {
      assert r == ['0'] + d;
      assert r[..1] == ['0'];
      assert Value(['0']) == 0 by {
        assert ['0'][..0] == [];
      }
      assert d == [d[0]] && Value(d) == DigitValue(d[0]) by {
        assert d[..0] == [];
      }
    } else {
      assert r == d;
    }
  }

  // ---------------------------------------------------------------------
  // formatTime

  /** `hours % 12`, then `hours ? hours : 12`: the hour on a 12-hour clock face. */
  function Hour12(hours: int): (r: int)
    requires 0 <= hours < 24
    ensures 1 <= r <= 12
    ensures r % 12 == hours % 12
  {
    var h := hours % 12;
    if h != 0 then h else 12
  }

  /** `hours >= 12 ? 'PM' : 'AM'`. */
  function Meridiem(hours: int): (r: string)
    ensures r == "PM" || r == "AM"
    ensures r == "PM" <==> hours >= 12
  {
    if hours >= 12 then "PM" else "AM"
  }

  /** `formatTime(date)` for a date whose `getHours()` and `getMinutes()` are `hours` and `minutes`. */
  function FormatTime(hours: int, minutes: int): string
    requires 0 <= hours < 24 && 0 <= minutes < 60
  {
    Decimal(Hour12(hours)) + ":" + MinuteField(minutes) + " " + Meridiem(hours)
  }

  /** Reads a time written as `h:mm AM` or `h:mm PM` back into a 24-hour hour and minutes. */
  function ParseTime(s: string): Option<(int, int)>
  {
    if |s| < 7 then None
    else
      var n := |s|;
      var hourText, minuteText, suffix := s[..n - 6], s[n - 5..n - 3], s[n - 2..];
      if s[n - 6] != ':' || s[n - 3] != ' ' || !AllDigits(hourText) || !AllDigits(minuteText) then None
      else if suffix != "AM" && suffix != "PM" then None
      else
        var h, m := Value(hourText), Value(minuteText);
        if h < 1 || 12 < h || 59 < m then None
        else Some((h % 12 + (if suffix == "PM" then 12 else 0), m))
  }

  /** Undoing the 12-hour clock: the face hour and the suffix give back the 24-hour hour. */
  lemma {:induction false} Hour12Back(hours: int)
    requires 0 <= hours < 24
    ensures Hour12(hours) % 12 + (if Meridiem(hours) == "PM" then 12 else 0) == hours
  {
  }

  /** How `ParseTime` reads a string assembled from its four fields. */
  lemma {:induction false} ParseFields(hourText: string, minuteText: string, suffix: string)
    requires |hourText| >= 1 && AllDigits(hourText)
    requires |minuteText| == 2 && AllDigits(minuteText)
    requires suffix == "AM" || suffix == "PM"
    requires 1 <= Value(hourText) <= 12 && Value(minuteText) <= 59
    ensures ParseTime(hourText + ":" + minuteText + " " + suffix)
            == Some((Value(hourText) % 12 + (if suffix == "PM" then 12 else 0), Value(minuteText)))
  {
    var s := hourText + ":" + minuteText + " " + suffix;
    var n := |s|;
    assert n == |hourText| + 6;
    assert s[..n - 6] == hourText;
    assert s[n - 6] == ':';
    assert s[n - 5..n - 3] == minuteText;
    assert s[n - 3] == ' ';
    assert s[n - 2..] == suffix;
  }

  /**
   `formatTime` loses nothing: the 12-hour hour (12 for midnight and noon),
   the two-digit minutes and the AM/PM suffix together determine the
   24-hour time they were made from.
   */
  lemma FormatTimeRoundTrip(hours: int, minutes: int)
    requires 0 <= hours < 24 && 0 <= minutes < 60
    ensures ParseTime(FormatTime(hours, minutes)) == Some((hours, minutes))
  {
    MinuteFieldTwoDigits(minutes);
    ValueOfDecimal(Hour12(hours));
    Hour12Back(hours);
    ParseFields(Decimal(Hour12(hours)), MinuteField(minutes), Meridiem(hours));
  }

  /** Where the fields of a time written by `formatTime` stand. */
  lemma {:induction false} FieldsAt(hourText: string, minuteText: string, suffix: string)
    requires |minuteText| == 2 && |suffix| == 2
    ensures var s := hourText + ":" + minuteText + " " + suffix;
      && |s| == |hourText| + 6
      && s[..|s| - 6] == hourText && s[|s| - 6] == ':'
      && s[|s| - 5..|s| - 3] == minuteText && s[|s| - 3] == ' '
      && s[|s| - 2..] == suffix
  {
    var s := hourText + ":" + minuteText + " " + suffix;
    assert s[..|s| - 6] == hourText;
    assert s[|s| - 5..|s| - 3] == minuteText;
    assert s[|s| - 2..] == suffix;
  }

  /**
   The shape `formatTime` promises: the suffix is "PM" exactly from noon on,
   it follows a space, the two characters before that are the zero-padded
   minutes, and before them stands a colon after the hour 1..12, which is 12
   at midnight and at noon.
   */
  lemma FormatTimeFields(hours: int, minutes: int)
    requires 0 <= hours < 24 && 0 <= minutes < 60
    ensures var s := FormatTime(hours, minutes);
      && (|s| == 7 || |s| == 8)
      && (s[|s| - 2..] == "PM" <==> hours >= 12)
      && (s[|s| - 2..] == "AM" <==> hours < 12)
      && s[|s| - 3] == ' ' && s[|s| - 6] == ':'
      && AllDigits(s[|s| - 5..|s| - 3]) && Value(s[|s| - 5..|s| - 3]) == minutes
      && AllDigits(s[..|s| - 6]) && 1 <= Value(s[..|s| - 6]) <= 12
      && (hours % 12 == 0 ==> Value(s[..|s| - 6]) == 12)
  {
    MinuteFieldTwoDigits(minutes);
    ValueOfDecimal(Hour12(hours));
    FieldsAt(Decimal(Hour12(hours)), MinuteField(minutes), Meridiem(hours));
  }

  /** A few readings of the clock, midnight and noon among them. */
  lemma FormatTimeExamples()
    ensures FormatTime(0, 5) == "12:05 AM"
    ensures FormatTime(9, 30) == "9:30 AM"
    ensures FormatTime(12, 0) == "12:00 PM"
    ensures FormatTime(23, 59) == "11:59 PM"
  {
    assert Hour12(0) == 12 && Hour12(9) == 9 && Hour12(12) == 12 && Hour12(23) == 11;
    assert Decimal(12) == "12" by {
      assert Decimal(12) == Decimal(1) + [Digit(2)];
    }
    assert Decimal(11) == "11" by {
      assert Decimal(11) == Decimal(1) + [Digit(1)];
    }
    assert Decimal(30) == "30" by {
      assert Decimal(30) == Decimal(3) + [Digit(0)];
    }
    assert Decimal(59) == "59" by {
      assert Decimal(59) == Decimal(5) + [Digit(9)];
    }
    assert MinuteField(5) == "05";
    assert MinuteField(0) == "00";
    assert MinuteField(30) == "30";
    assert MinuteField(59) == "59";
  }

  // ---------------------------------------------------------------------
  // String.prototype.trim

  /** JavaScript's WhiteSpace and LineTerminator code points, the ones `trim()` strips. */
  predicate IsSpace(c: char)
  {
    var n := c as int;
    || n == 0x09 || n == 0x0A || n == 0x0B || n == 0x0C || n == 0x0D
    || n == 0x20 || n == 0xA0 || n == 0x1680
    || (0x2000 <= n <= 0x200A)
    || n == 0x2028 || n == 0x2029 || n == 0x202F || n == 0x205F
    || n == 0x3000 || n == 0xFEFF
  }

  predicate Blank(s: string)
  {
    forall i :: 0 <= i < |s| ==> IsSpace(s[i])
  }

  lemma BlankConcat(a: string, b: string)
    requires Blank(a) && Blank(b)
    ensures Blank(a + b)
  {
    assert forall i :: 0 <= i < |a + b| ==> (a + b)[i] == if i < |a| then a[i] else b[i - |a|];
  }

  /** Drops the leading white space. */
  function TrimStart(s: string): (r: string)
    decreases |s|
    ensures |r| <= |s| && r == s[|s| - |r|..]
    ensures Blank(s[..|s| - |r|])
    ensures r == [] || !IsSpace(r[0])
  {
    if s != [] && IsSpace(s[0]) then
      var r := TrimStart(s[1..]);
      assert s[..|s| - |r|] == [s[0]] + s[1..][..|s| - 1 - |r|];
      r
    else
      s
  }

  /** Drops the trailing white space. */
  function TrimEnd(s: string): (r: string)
    decreases |s|
    ensures |r| <= |s| && r == s[..|r|]
    ensures Blank(s[|r|..])
    ensures r == [] || !IsSpace(r[|r| - 1])
  {
    if s != [] && IsSpace(s[|s| - 1]) then
      var r := TrimEnd(s[..|s| - 1]);
      assert s[|r|..] == s[..|s| - 1][|r|..] + [s[|s| - 1]];
      r
    else
      s
  }

  /** `s.trim()`. */
  function Trim(s: string): string
  {
    TrimEnd(TrimStart(s))
  }

  /** What `trim()` returns is `s` without white space at its ends, and the empty string exactly when `s` is all white space. */
  lemma TrimShape(s: string)
    ensures Trim(s) == [] <==> Blank(s)
    ensures Trim(s) != [] ==> !IsSpace(Trim(s)[0]) && !IsSpace(Trim(s)[|Trim(s)| - 1])
  {
    var t := TrimStart(s);
    var r := TrimEnd(t);
    if r == [] {
      assert Blank(t) by {
        assert t[|r|..] == t;
      }
      assert t == [];
      assert s[..|s|] == s;
    } else {
      assert r[0] == t[0];
      assert !IsSpace(s[|s| - |t|]);
    }
  }

  /**
   `trim()` returns exactly the middle of a string that is white space,
   then a core that neither starts nor ends with white space, then white
   space again.
   */
  lemma {:induction false} TrimUnique(pre: string, core: string, post: string)
    requires Blank(pre) && Blank(post)
    requires core == [] || (!IsSpace(core[0]) && !IsSpace(core[|core| - 1]))
    ensures Trim(pre + core + post) == core
  {
    if core != [] {
      TrimStartDrops(pre, core + post);
      assert pre + core + post == pre + (core + post);
      TrimEndDrops(core, post);
    } else {
      assert Trim(pre + post) == [] by {
        BlankConcat(pre, post);
        TrimShape(pre + post);
      }
      assert pre + core + post == pre + post;
    }
  }

  lemma {:induction false} TrimStartDrops(pre: string, rest: string)
    requires Blank(pre)
    requires rest == [] || !IsSpace(rest[0])
    decreases |pre|
    ensures TrimStart(pre + rest) == rest
  {
    if pre != [] {
      assert (pre + rest)[1..] == pre[1..] + rest;
      TrimStartDrops(pre[1..], rest);
    }
  }

  lemma {:induction false} TrimEndDrops(rest: string, post: string)
    requires Blank(post)
    requires rest == [] || !IsSpace(rest[|rest| - 1])
    decreases |post|
    ensures TrimEnd(rest + post) == rest
  {
    if post != [] {
      assert (rest + post)[..|rest + post| - 1] == rest + post[..|post| - 1];
      TrimEndDrops(rest, post[..|post| - 1]);
    }
  }

  /** Trimming twice is trimming once. */
  lemma TrimIdempotent(s: string)
    ensures Trim(Trim(s)) == Trim(s)
  {
    var r := Trim(s);
    TrimShape(s);
    if r != [] {
      TrimUnique([], r, []);
      assert [] + r + [] == r;
    }
  }

  // ---------------------------------------------------------------------
  // The two input checks

  /**
   `connectWebSocket` reads the name field and trims it. An empty result
   shows an alert and opens no socket (`None`); otherwise the trimmed name
   is the client id the socket is opened with.
   */
  function JoinName(field: string): (r: Option<string>)
    ensures r.None? <==> Blank(field)
    ensures r.Some? ==> r.value == Trim(field)
  {
    TrimShape(field);
    var name := Trim(field);
    if name == [] then None else Some(name)
  }

  /** The message field after `sendMessage`, and the text it sent, if any. */
  datatype Composer = Composer(sent: Option<string>, field: string)

  /**
   `sendMessage`: the trimmed field is sent when it is not empty and the
   socket exists and is open, and the field is then cleared; otherwise
   nothing is sent and the field keeps its text.
   */
  function SendMessage(field: string, socketOpen: bool): (r: Composer)
    ensures r.sent.Some? <==> !Blank(field) && socketOpen
    ensures r.sent.Some? ==> r.sent.value == Trim(field) && r.field == ""
    ensures r.sent.None? ==> r.field == field
  {
    TrimShape(field);
    var message := Trim(field);
    if message != [] && socketOpen then Composer(Some(message), "") else Composer(None, field)
  }

  /** What is joined with or sent carries no white space at either end and is never empty. */
  lemma GuardsPassTrimmedText(name: string, message: string, socketOpen: bool)
    ensures JoinName(name).Some? ==>
      JoinName(name).value != [] && Trim(JoinName(name).value) == JoinName(name).value
    ensures SendMessage(message, socketOpen).sent.Some? ==>
      var text := SendMessage(message, socketOpen).sent.value;
      text != [] && Trim(text) == text
  {
    TrimIdempotent(name);
    TrimIdempotent(message);
    TrimShape(name);
    TrimShape(message);
  }
}
