/** The text of an admission ticket: what mint prints and what consume reads back (src/common/admission.c). */
module AdmissionText {

  import opened Admission
  import opened AdmissionTicket
  import opened Options

  const PREFIX: string := "itadm1."
  const TICKET_CAP: nat := 256
  const EXP_CAP: nat := 24

  /** The fields as they stand in the text; the MAC as its hex digits. */
  datatype Fields = Fields(job: string, exp: int, nonceHex: string, bodyHex: string, macHex: string)

  /** What consume demands of the fields, and the range of the expiry's type. */
  predicate Proper(f: Fields) {
    && JobOk(f.job) && InLong(f.exp) && Hex(f.nonceHex, 32) && Hex(f.bodyHex, 64) && Hex(f.macHex, 64)
  }

  // ----- Printing -----

  function FromBody(f: Fields): string {
    f.bodyHex + ("." + f.macHex)
  }

  function FromNonce(f: Fields): string {
    f.nonceHex + ("." + FromBody(f))
  }

  function FromExp(f: Fields, exp: string): string {
    exp + ("." + FromNonce(f))
  }

  /** The ticket with its expiry spelled that way. */
  function Spelled(f: Fields, exp: string): string {
    PREFIX + (f.job + ("." + FromExp(f, exp)))
  }

  /** What mint prints. */
  function Format(f: Fields): string {
    Spelled(f, Signed(f.exp))
  }

  // ----- Reading -----

  /** strchr(s, '.'): the position of the first dot, or the length. */
  function Dot(s: string): (k: nat)
    ensures k <= |s| && (k < |s| ==> s[k] == '.') && forall i | 0 <= i < k :: s[i] != '.'
  {
    if s == [] || s[0] == '.' then 0 else 1 + Dot(s[1..])
  }

  predicate IsDigit(c: char) {
    '0' <= c <= '9'
  }

  predicate AllDigits(s: string) {
    forall i | 0 <= i < |s| :: IsDigit(s[i])
  }

  /** isspace in the C locale. */
  predicate IsSpace(c: char) {
    c == ' ' || '\t' <= c <= '\r'
  }

  function SkipSpace(s: string): string {
    if s != [] && IsSpace(s[0]) then SkipSpace(s[1..]) else s
  }

  function DigitValue(c: char): (d: nat)
    requires IsDigit(c)
    ensures d < 10
  {
    (c - '0') as nat
  }

  function Value(s: string): nat
    requires AllDigits(s)
  {
    if s == [] then 0 else 10 * Value(s[..|s| - 1]) + DigitValue(s[|s| - 1])
  }

  function Clamp(v: int): int {
    if v > LLONG_MAX then LLONG_MAX else if v < LLONG_MIN then LLONG_MIN else v
  }

  /** strtoll in base 10, provided it consumes the whole string: spaces, a sign, digits; too large saturates. */
  function ParseLong(s: string): Option<int> {
    var t := SkipSpace(s);
    var negative := t != [] && t[0] == '-';
    var digits := if t != [] && (t[0] == '-' || t[0] == '+') then t[1..] else t;
    if digits == [] || !AllDigits(digits) then None
    else Some(Clamp(if negative then -(Value(digits) as int) else Value(digits)))
  }

  // The parse of consume, field by field, up to the check of the MAC.

  function ReadMac(f: Fields, p: string): Option<Fields> {
    if |p| == 64 && IsHex(p) then Some(f.(macHex := p)) else None
  }

  function ReadBody(f: Fields, p: string): Option<Fields> {
    var q := Dot(p);
    if q == |p| || q != 64 || !IsHex(p[..q]) then None else ReadMac(f.(bodyHex := p[..q]), p[q + 1..])
  }

  function ReadNonce(f: Fields, p: string): Option<Fields> {
    var q := Dot(p);
    if q == |p| || q != 32 || !IsHex(p[..q]) then None else ReadBody(f.(nonceHex := p[..q]), p[q + 1..])
  }

  function ReadExp(f: Fields, p: string): Option<Fields> {
    var q := Dot(p);
    if q == |p| || q == 0 || q >= EXP_CAP || ParseLong(p[..q]).None? then None
    else ReadNonce(f.(exp := ParseLong(p[..q]).value), p[q + 1..])
  }

  function ReadJob(p: string): Option<Fields> {
    var q := Dot(p);
    if q == |p| || q == 0 || q > JOB_MAX || !JobOk(p[..q]) then None
    else ReadExp(Fields(p[..q], 0, "", "", ""), p[q + 1..])
  }

  function ParseTicket(s: string): Option<Fields> {
    if PREFIX <= s then ReadJob(s[|PREFIX|..]) else None
  }

  lemma ParseLongInRange(s: string)
    ensures ParseLong(s).Some? ==> LLONG_MIN <= ParseLong(s).value <= LLONG_MAX
  {
    hide SkipSpace;
    hide Value;
  }

  lemma ReadNonceIs(f: Fields, p: string)
    requires ReadNonce(f, p).Some?
    ensures var g := ReadNonce(f, p).value;
      && p == FromNonce(g) && g.job == f.job && g.exp == f.exp
      && Hex(g.nonceHex, 32) && Hex(g.bodyHex, 64) && Hex(g.macHex, 64)
  {
    hide Dot;
    var rest := p[Dot(p) + 1..];
    Rejoined(p, Dot(p));
    Rejoined(rest, Dot(rest));
  }

  /** Where a text spells the expiry: between its second and third dots. */
  function ExpText(s: string): string
    requires ParseTicket(s).Some?
  {
    var p := s[|PREFIX|..];
    var p1 := p[Dot(p) + 1..];
    p1[..Dot(p1)]
  }

  lemma ReadExpIs(f: Fields, p: string)
    requires ReadExp(f, p).Some?
    ensures var g := ReadExp(f, p).value;
      && p == FromExp(g, p[..Dot(p)]) && g.job == f.job && LLONG_MIN <= g.exp <= LLONG_MAX
      && Hex(g.nonceHex, 32) && Hex(g.bodyHex, 64) && Hex(g.macHex, 64)
  {
    hide Dot;
    hide ParseLong;
    hide ReadNonce;
    hide FromNonce;
    Rejoined(p, Dot(p));
    ParseLongInRange(p[..Dot(p)]);
    ReadNonceIs(f.(exp := ParseLong(p[..Dot(p)]).value), p[Dot(p) + 1..]);
  }

  lemma ReadJobIs(p: string)
    requires ReadJob(p).Some?
    ensures var f := ReadJob(p).value;
      Proper(f) && p == f.job + ("." + FromExp(f, p[Dot(p) + 1..][..Dot(p[Dot(p) + 1..])]))
  {
    hide Dot;
    hide ReadExp;
    hide FromExp;
    hide Hex;
    hide JobOk;
    Rejoined(p, Dot(p));
    ReadExpIs(Fields(p[..Dot(p)], 0, "", "", ""), p[Dot(p) + 1..]);
  }

  /** Whatever parses is proper, and is its fields in order: only the spelling of the expiry is free. */
  lemma ParsedIsSpelled(s: string)
    requires ParseTicket(s).Some?
    ensures var f := ParseTicket(s).value; Proper(f) && s == Spelled(f, ExpText(s))
  {
    hide Dot;
    hide ReadJob;
    hide FromExp;
    hide Proper;
    assert s == PREFIX + s[|PREFIX|..];
    ReadJobIs(s[|PREFIX|..]);
  }

  lemma Rejoined(s: string, k: nat)
    requires k < |s| && s[k] == '.'
    ensures s == s[..k] + ("." + s[k + 1..])
  {
  }

  // ----- Printing an expiry -----

  lemma DigitIs(d: nat)
    requires d < 10
    ensures IsDigit("0123456789"[d]) && DigitValue("0123456789"[d]) == d
  {
    assert "0123456789"[d] == '0' + d as char;
  }

  lemma {:induction false} DigitsValue(n: nat)
    ensures Digits(n) != [] && AllDigits(Digits(n)) && Value(Digits(n)) == n
  {
    DigitIs(n % 10);
    if n >= 10 {
      DigitsValue(n / 10);
      var s := Digits(n / 10);
      var c := "0123456789"[n % 10];
      assert Digits(n) == s + [c] && (s + [c])[..|s|] == s;
    } else {
      assert Digits(n) == ["0123456789"[n]] && ["0123456789"[n]][..0] == [];
    }
  }

  lemma SignedIsShort(n: int)
    requires InLong(n)
    ensures 0 < |Signed(n)| <= 20 && forall i | 0 <= i < |Signed(n)| :: IsDigit(Signed(n)[i]) || Signed(n)[i] == '-'
  {
    hide Digits;
    SignedLength(n);
    DigitsValue(if n < 0 then -n else n);
  }

  lemma SignedParses(n: int)
    requires InLong(n)
    ensures ParseLong(Signed(n)) == Some(n)
  {
    hide Digits;
    hide Value;
    var m := if n < 0 then -n else n;
    DigitsValue(m);
    assert !IsSpace(Signed(n)[0]);
    assert n < 0 ==> Signed(n)[1..] == Digits(m);
  }

  // ----- Round trips -----

  lemma {:induction false} DotAfter(a: string, rest: string)
    requires forall i | 0 <= i < |a| :: a[i] != '.'
    ensures Dot(a + ("." + rest)) == |a|
    ensures (a + ("." + rest))[..|a|] == a && (a + ("." + rest))[|a| + 1..] == rest
  {
    var s := a + ("." + rest);
    assert s[|a|] == '.';
    assert forall i | 0 <= i < |a| :: s[i] == a[i];
  }

  lemma NonceReadsBack(f: Fields, g: Fields)
    requires Proper(g) && f.job == g.job && f.exp == g.exp
    ensures ReadNonce(f, FromNonce(g)) == Some(g) && |FromNonce(g)| == 162
  {
    hide Dot;
    DotAfter(g.nonceHex, FromBody(g));
    DotAfter(g.bodyHex, g.macHex);
    NoDots(g.nonceHex);
    NoDots(g.bodyHex);
  }

  lemma NoDots(s: string)
    requires IsHex(s)
    ensures forall i | 0 <= i < |s| :: s[i] != '.'
  {
  }

  lemma ExpReadsBack(f: Fields, g: Fields)
    requires Proper(g) && f.job == g.job
    ensures ReadExp(f, FromExp(g, Signed(g.exp))) == Some(g) && |FromExp(g, Signed(g.exp))| <= 183
  {
    hide Dot;
    hide Signed;
    hide ParseLong;
    hide ReadNonce;
    hide FromNonce;
    SignedIsShort(g.exp);
    SignedParses(g.exp);
    DotAfter(Signed(g.exp), FromNonce(g));
    NonceReadsBack(f.(exp := g.exp), g);
  }

  /** A printed ticket reads back as the fields it was printed from, and it fits the buffer it is printed into. */
  lemma PrintedReadsBack(f: Fields)
    requires Proper(f)
    ensures ParseTicket(Format(f)) == Some(f)
    ensures |Format(f)| < 256 == TICKET_CAP
  {
    hide Dot;
    hide Signed;
    hide ReadExp;
    hide FromExp;
    var tail := FromExp(f, Signed(f.exp));
    DotAfter(f.job, tail);
    ExpReadsBack(Fields(f.job, 0, "", "", ""), f);
    assert (PREFIX + (f.job + ("." + tail)))[|PREFIX|..] == f.job + ("." + tail);
  }

  /**
   * A text is the printed form of what it parses to exactly when it spells the expiry the way it is printed; so
   * texts that differ only there ("+5", "05") are one and the same ticket, with one nonce.
   */
  lemma TextIsPrintedFormIff(s: string)
    requires ParseTicket(s).Some?
    ensures Format(ParseTicket(s).value) == s <==> ExpText(s) == Signed(ParseTicket(s).value.exp)
  {
    hide ParseTicket;
    hide ExpText;
    hide Signed;
    ParsedIsSpelled(s);
    SpelledIsInjective(ParseTicket(s).value, ExpText(s), Signed(ParseTicket(s).value.exp));
  }

  lemma SpelledIsInjective(f: Fields, e: string, e': string)
    ensures Spelled(f, e) == Spelled(f, e') <==> e == e'
  {
    if Spelled(f, e) == Spelled(f, e') {
      SamePrefix(PREFIX, f.job + ("." + FromExp(f, e)), f.job + ("." + FromExp(f, e')));
      SamePrefix(f.job, "." + FromExp(f, e), "." + FromExp(f, e'));
      SamePrefix(".", FromExp(f, e), FromExp(f, e'));
      SameSuffix(e, e', "." + FromNonce(f));
    }
  }

  lemma SamePrefix(a: string, b: string, c: string)
    requires a + b == a + c
    ensures b == c
  {
    assert (a + b)[|a|..] == b && (a + c)[|a|..] == c;
  }

  lemma SameSuffix(a: string, b: string, t: string)
    requires a + t == b + t
    ensures a == b
  {
    assert |a + t| == |b + t|;
    assert (a + t)[..|a|] == a && (b + t)[..|b|] == b;
  }

  // ----- The ticket that a text presents -----

  /** What consume makes of the header's text; `mac` says which ideal MAC its last digits stand for. */
  function Presents(text: string, mac: string -> Mac): Presented {
    if text == "" then Nothing else
    match ParseTicket(text)
    case None => Unparsable
    case Some(f) => Parsed(Ticket(f.job, f.exp, f.nonceHex, f.bodyHex, mac(f.macHex)))
  }

  /** A text that parses never fails the field checks that consume repeats; it is malformed exactly when it does not. */
  lemma MalformedIff(s: State, text: string, mac: string -> Mac, bodyHex: string, now: int)
    requires s.armed && text != ""
    ensures Verdict(s, Presents(text, mac), bodyHex, now) == MALFORMED <==> ParseTicket(text).None?
  {
    hide ParseTicket;
    hide MacInput;
    hide Hex;
    hide JobOk;
    if ParseTicket(text).Some? {
      ParsedIsSpelled(text);
    }
  }

  /** Only an empty text counts as no ticket at all. */
  lemma AbsentIff(s: State, text: string, mac: string -> Mac, bodyHex: string, now: int)
    ensures Verdict(s, Presents(text, mac), bodyHex, now) == ABSENT <==> text == ""
  {
    hide ParseTicket;
    hide MacInput;
    hide Hex;
    hide JobOk;
  }

  /** A minted ticket, printed and presented, is that ticket. */
  lemma PrintedIsPresented(t: Ticket, macHex: string, mac: string -> Mac)
    requires WellFormed(t) && Hex(macHex, 64) && mac(macHex) == t.mac
    ensures Presents(Format(Fields(t.job, t.exp, t.nonceHex, t.bodyHex, macHex)), mac) == Parsed(t)
  {
    hide ParseTicket;
    hide Hex;
    hide JobOk;
    PrintedReadsBack(Fields(t.job, t.exp, t.nonceHex, t.bodyHex, macHex));
  }
}
