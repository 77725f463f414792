/** The text handling both programs share: getline on a string stream, C strings in datagrams, decimal numbers. */
module Text {
  import opened Wrappers

  /** An istringstream: what is left to read, and whether neither end of file nor failure was hit yet. */
  datatype Stream = Stream(rest: string, good: bool)

  /** A getline: the stream afterwards, the string variable afterwards, and the stream's truth value. */
  datatype Read = Read(stream: Stream, text: string, ok: bool)

  function Open(s: string): Stream { Stream(s, true) }

  function IndexOf(s: string, c: char): (k: nat)
    ensures k <= |s| && (k < |s| ==> s[k] == c)
    ensures c !in s[..k]
  {
    if s == [] || s[0] == c then 0
    else
      var k := 1 + IndexOf(s[1..], c);
      assert s[..k] == [s[0]] + s[1..][..k - 1];
      k
  }

  /** getline (stream, variable, delimiter). A stream that is no longer good leaves the variable as it was. */
  function GetLine(s: Stream, variable: string, delimiter: char): Read {
    if !s.good then Read(s, variable, false)
    else
      var k := IndexOf(s.rest, delimiter);
      if k < |s.rest| then Read(Open(s.rest[k + 1..]), s.rest[..k], true)
      else Read(Stream("", false), s.rest, s.rest != "")
  }

  lemma {:induction false} IndexOfIs(s: string, c: char, k: nat)
    requires k <= |s| && (k < |s| ==> s[k] == c) && c !in s[..k]
    ensures IndexOf(s, c) == k
  {
    if k > 0 {
      assert s[0] == s[..k][0];
      assert s[..k] == [s[0]] + s[1..][..k - 1];
      IndexOfIs(s[1..], c, k - 1);
    }
  }

  lemma GetLineToken(token: string, more: string, variable: string, delimiter: char)
    requires delimiter !in token
    ensures GetLine(Open(token + [delimiter] + more), variable, delimiter) == Read(Open(more), token, true)
  {
    var s := token + [delimiter] + more;
    assert s[..|token|] == token && s[|token| + 1..] == more;
    IndexOfIs(s, delimiter, |token|);
  }

  lemma GetLineLast(token: string, variable: string, delimiter: char)
    requires delimiter !in token
    ensures GetLine(Open(token), variable, delimiter) == Read(Stream("", false), token, token != "")
  {
    assert token[..|token|] == token;
    IndexOfIs(token, delimiter, |token|);
  }

  // ---------- datagrams ----------

  const RECEIVE_LIMIT := 1000

  /** A C string ends at its first zero character. */
  function CString(s: string): string { s[..IndexOf(s, '\0')] }

  function Take(s: string, n: nat): string { if |s| <= n then s else s[..n] }

  /** What __recvinfo returns for a message handed to __sendreq. */
  function Received(message: string): string { Take(CString(message), RECEIVE_LIMIT) }

  /** A word that survives the flat messages: no blank and no zero character. */
  predicate Word(s: string) { ' ' !in s && '\0' !in s }

  predicate Words(ws: seq<string>) { forall w :: w in ws ==> Word(w) }

  /** Every word followed by one blank. */
  function Spaced(ws: seq<string>): string {
    if ws == [] then "" else ws[0] + " " + Spaced(ws[1..])
  }

  lemma {:induction false} SpacedConcat(a: seq<string>, b: seq<string>)
    ensures Spaced(a + b) == Spaced(a) + Spaced(b)
  {
    if a == [] {
      assert a + b == b;
    } else {
      assert (a + b)[1..] == a[1..] + b;
      SpacedConcat(a[1..], b);
    }
  }

  lemma {:induction false} SpacedHasNoZero(ws: seq<string>)
    requires Words(ws)
    ensures '\0' !in Spaced(ws)
  {
    if ws != [] {
      assert Word(ws[0]);
      SpacedHasNoZero(ws[1..]);
    }
  }

  /** A spaced message of at most 1001 characters arrives whole, except perhaps for its last blank. */
  lemma SpacedArrives(ws: seq<string>)
    requires Words(ws) && |Spaced(ws)| <= RECEIVE_LIMIT + 1
    ensures Received(Spaced(ws)) == Spaced(ws) || (ws != [] && Received(Spaced(ws)) == Chopped(ws))
  {
    SpacedHasNoZero(ws);
    var s := Spaced(ws);
    assert s[..|s|] == s;
    IndexOfIs(s, '\0', |s|);
  }

  /** The message without its last blank. */
  function Chopped(ws: seq<string>): string
    requires ws != []
  {
    Spaced(ws)[..|Spaced(ws)| - 1]
  }

  lemma {:induction false} ChoppedCons(ws: seq<string>)
    requires ws != []
    ensures Chopped(ws) == if |ws| == 1 then ws[0] else ws[0] + " " + Chopped(ws[1..])
  {
    if |ws| == 1 {
      assert Spaced(ws) == ws[0] + " ";
    } else {
      assert Spaced(ws) == ws[0] + " " + Spaced(ws[1..]);
    }
  }

  /** A text from which the words can be read back one by one. */
  predicate Carries(text: string, ws: seq<string>) {
    text == Spaced(ws) || (ws != [] && text == Chopped(ws))
  }

  /** Reading the next word of a text that carries at least one. */
  lemma ReadWord(text: string, ws: seq<string>, variable: string)
    requires Words(ws) && ws != [] && Carries(text, ws)
    ensures var r := GetLine(Open(text), variable, ' ');
            && r.text == ws[0]
            && (|ws| > 1 ==> r.ok && r.stream.good && Carries(r.stream.rest, ws[1..]))
            && (|ws| == 1 ==> r.stream.rest == "" && (text == Spaced(ws) ==> r.ok && r.stream.good)
                              && (r.stream.good ==> r.ok))
  {
    ChoppedCons(ws);
    assert Word(ws[0]);
    if text == Spaced(ws) {
      assert text == ws[0] + [' '] + Spaced(ws[1..]);
      GetLineToken(ws[0], Spaced(ws[1..]), variable, ' ');
    } else if |ws| == 1 {
      GetLineLast(ws[0], variable, ' ');
    } else {
      assert text == ws[0] + [' '] + Chopped(ws[1..]);
      GetLineToken(ws[0], Chopped(ws[1..]), variable, ' ');
    }
  }

  // ---------- decimal numbers ----------

  predicate IsDigit(c: char) { '0' <= c <= '9' }

  function Digit(d: nat): char
    requires d < 10
  {
    '0' + d as char
  }

  function DigitValue(c: char): nat
    requires IsDigit(c)
  {
    c as int - '0' as int
  }

  function PrintNat(n: nat): string {
    if n < 10 then [Digit(n)] else PrintNat(n / 10) + [Digit(n % 10)]
  }

  /** The %d conversion. */
  function PrintInt(n: int): string { if n < 0 then "-" + PrintNat(-n) else PrintNat(n) }

  function DigitPrefix(s: string): (k: nat)
    ensures k <= |s|
    ensures forall i :: 0 <= i < k ==> IsDigit(s[i])
  {
    if s == [] || !IsDigit(s[0]) then 0 else 1 + DigitPrefix(s[1..])
  }

  function DigitsValue(ds: string): nat
    requires forall i :: 0 <= i < |ds| ==> IsDigit(ds[i])
  {
    if ds == [] then 0 else 10 * DigitsValue(ds[..|ds| - 1]) + DigitValue(ds[|ds| - 1])
  }

  function ScanNat(s: string): Option<nat> {
    var k := DigitPrefix(s);
    if k == 0 then None else Some(DigitsValue(s[..k]))
  }

  predicate IsSpace(c: char) { c == ' ' || '\t' <= c <= '\r' }

  /** Blank, tabulator, line feed, vertical tabulator, form feed and carriage return. */
  lemma SpaceKinds(c: char)
    ensures IsSpace(c) <==> c as int == 32 || 9 <= c as int <= 13
  {
  }

  function SkipSpace(s: string): string {
    if s != [] && IsSpace(s[0]) then SkipSpace(s[1..]) else s
  }

  /** sscanf with %d: blanks, a sign, digits; None when there is no digit. */
  function ScanInt(s: string): Option<int> {
    var t := SkipSpace(s);
    if t != [] && t[0] == '-' then
      var digits := ScanNat(t[1..]);
      if digits.None? then None
      else
        var n: int := digits.value;
        Some(-n)
    else
      var digits := ScanNat(if t != [] && t[0] == '+' then t[1..] else t);
      if digits.None? then None else Some(digits.value)
  }

  /** atoi */
  function Atoi(s: string): int {
    match ScanInt(s) case None => 0 case Some(n) => n
  }

  lemma {:induction false} PrintNatDigits(n: nat)
    ensures PrintNat(n) != []
    ensures forall i :: 0 <= i < |PrintNat(n)| ==> IsDigit(PrintNat(n)[i])
    ensures DigitsValue(PrintNat(n)) == n
  {
    if n >= 10 {
      PrintNatDigits(n / 10);
      assert PrintNat(n)[..|PrintNat(n)| - 1] == PrintNat(n / 10);
    }
  }

  predicate AllDigits(s: string) { forall i :: 0 <= i < |s| ==> IsDigit(s[i]) }

  predicate AllSpace(s: string) { forall i :: 0 <= i < |s| ==> IsSpace(s[i]) }

  /** The text does not go on with a digit. */
  predicate EndsNumber(rest: string) { rest == "" || !IsDigit(rest[0]) }

  lemma {:induction false} DigitsFirst(ds: string, rest: string)
    requires AllDigits(ds) && EndsNumber(rest)
    ensures DigitPrefix(ds + rest) == |ds|
  {
    if ds == "" {
      assert ds + rest == rest;
    } else {
      assert (ds + rest)[1..] == ds[1..] + rest;
      DigitsFirst(ds[1..], rest);
    }
  }

  lemma {:induction false} SpaceSkipped(blanks: string, s: string)
    requires AllSpace(blanks) && (s == "" || !IsSpace(s[0]))
    ensures SkipSpace(blanks + s) == s
  {
    if blanks == "" {
      assert blanks + s == s;
    } else {
      assert (blanks + s)[1..] == blanks[1..] + s;
      SpaceSkipped(blanks[1..], s);
    }
  }

  lemma ScanDigits(n: nat, rest: string)
    requires EndsNumber(rest)
    ensures ScanNat(PrintNat(n) + rest) == Some(n)
    ensures IsDigit((PrintNat(n) + rest)[0])
  {
    PrintNatDigits(n);
    DigitsFirst(PrintNat(n), rest);
    assert (PrintNat(n) + rest)[..|PrintNat(n)|] == PrintNat(n);
  }

  /** Scanning a printed number gives it back, whatever blanks are in front and whatever follows that is no digit. */
  lemma ScanAround(blanks: string, n: int, rest: string)
    requires AllSpace(blanks) && EndsNumber(rest)
    ensures ScanInt(blanks + (PrintInt(n) + rest)) == Some(n)
  {
    if n < 0 {
      ScanNegative(blanks, -n, rest);
      assert PrintInt(n) + rest == "-" + (PrintNat(-n) + rest);
    } else {
      ScanDigits(n, rest);
      SpaceSkipped(blanks, PrintNat(n) + rest);
    }
  }

  lemma ScanNegative(blanks: string, n: nat, rest: string)
    requires AllSpace(blanks) && EndsNumber(rest)
    ensures var m: int := n; ScanInt(blanks + ("-" + (PrintNat(n) + rest))) == Some(-m)
  {
    var t := "-" + (PrintNat(n) + rest);
    ScanDigits(n, rest);
    assert t[0] == '-' && t[1..] == PrintNat(n) + rest;
    SpaceSkipped(blanks, t);
  }

  /** A plus sign is read over, and a text without a number in front is none, which atoi takes for 0. */
  lemma ScanOthers(blanks: string, n: nat, rest: string)
    requires AllSpace(blanks) && EndsNumber(rest)
    ensures ScanInt(blanks + ("+" + (PrintNat(n) + rest))) == Some(n)
    ensures (rest == "" || (!IsSpace(rest[0]) && rest[0] != '+' && rest[0] != '-')) ==>
              ScanInt(blanks + rest) == None && Atoi(blanks + rest) == 0
  {
    var t := "+" + (PrintNat(n) + rest);
    ScanDigits(n, rest);
    assert t[0] == '+' && t[1..] == PrintNat(n) + rest;
    SpaceSkipped(blanks, t);
    if rest == "" || (!IsSpace(rest[0]) && rest[0] != '+' && rest[0] != '-') {
      SpaceSkipped(blanks, rest);
    }
  }

  /** Printing a number and scanning it gives the number back, and its digits form one word. */
  lemma PrintScan(n: int)
    ensures ScanInt(PrintInt(n)) == Some(n)
    ensures Word(PrintInt(n)) && ':' !in PrintInt(n)
  {
    ScanAround("", n, "");
    assert "" + (PrintInt(n) + "") == PrintInt(n);
    OnlyDigits(if n < 0 then -n else n);
  }

  lemma OnlyDigits(n: nat)
    ensures forall c :: c in PrintNat(n) ==> IsDigit(c)
  {
    PrintNatDigits(n);
    forall c | c in PrintNat(n) ensures IsDigit(c) {
      var i :| 0 <= i < |PrintNat(n)| && PrintNat(n)[i] == c;
    }
  }

  /** How 2042 is printed. */
  lemma PrintSample()
    ensures PrintInt(2042) == "2042" && PrintInt(-7) == "-7" && PrintInt(0) == "0"
    ensures PrintInt(9) == "9" && PrintInt(135) == "135" && PrintInt(68) == "68"
  {
    assert PrintNat(2042) == PrintNat(204) + "2";
    assert PrintNat(204) == PrintNat(20) + "4";
    assert PrintNat(20) == PrintNat(2) + "0";
    assert PrintNat(135) == PrintNat(13) + "5";
    assert PrintNat(13) == PrintNat(1) + "3";
    assert PrintNat(68) == PrintNat(6) + "8";
  }
}
