/** The signed string of an admission ticket (src/common/admission.c): no two tickets share one. */
module AdmissionTicket {

  import opened Bytes

  type Key = seq<Byte>

  /** The MAC is ideal: a tag verifies only for the key and the message it was made from. */
  datatype Mac = Tag(key: Key, msg: string) | Forged(id: nat)

  const JOB_MAX: nat := 64
  const LABEL: string := "idletoken-admission-v1"

  /** char msg[512] of adm_mac. */
  const MSG_CAP: nat := 512

  const LLONG_MAX: int := 0x7FFF_FFFF_FFFF_FFFF
  const LLONG_MIN: int := -0x8000_0000_0000_0000

  /** The range of an expiry, a long long. */
  predicate InLong(n: int) {
    LLONG_MIN <= n <= LLONG_MAX
  }

  lemma InLongIff(n: int)
    ensures InLong(n) <==> -0x1_0000_0000 * 0x8000_0000 <= n < 0x1_0000_0000 * 0x8000_0000
  {
  }

  predicate JobChar(c: char) {
    'a' <= c <= 'z' || 'A' <= c <= 'Z' || '0' <= c <= '9' || c == '_' || c == '-' || c == ':'
  }

  /** adm_job_ok. */
  predicate JobOk(job: string) {
    1 <= |job| <= JOB_MAX && forall i | 0 <= i < |job| :: JobChar(job[i])
  }

  predicate HexChar(c: char) {
    '0' <= c <= '9' || 'a' <= c <= 'f' || 'A' <= c <= 'F'
  }

  /** adm_hexval: either case. */
  function HexValue(c: char): nat
    requires HexChar(c)
  {
    if c <= '9' then (c - '0') as nat else if c <= 'F' then (c - 'A') as nat + 10 else (c - 'a') as nat + 10
  }

  predicate IsHex(s: string) {
    forall i | 0 <= i < |s| :: HexChar(s[i])
  }

  /** Job ids have 1 to 64 characters of a fixed charset. */
  lemma JobOkIff(job: string)
    ensures JobOk(job) <==>
      && 0 < |job| < 65
      && forall i | 0 <= i < |job| ::
           || job[i] in "abcdefghijklmnopqrstuvwxyz" || job[i] in "ABCDEFGHIJKLMNOPQRSTUVWXYZ"
           || job[i] in "0123456789" || job[i] in "_-:"
  {
    forall i | 0 <= i < |job| ensures JobChar(job[i]) <==>
      || job[i] in "abcdefghijklmnopqrstuvwxyz" || job[i] in "ABCDEFGHIJKLMNOPQRSTUVWXYZ"
      || job[i] in "0123456789" || job[i] in "_-:"
    {
      LowerCase(job[i]);
      UpperCase(job[i]);
      DecimalDigit(job[i]);
    }
  }

  lemma LowerCase(c: char)
    ensures 'a' <= c <= 'z' <==> c in "abcdefghijklmnopqrstuvwxyz"
  {
    var s := "abcdefghijklmnopqrstuvwxyz";
    if 'a' <= c <= 'z' {
      assert s[c as int - 'a' as int] == c;
    }
  }

  lemma UpperCase(c: char)
    ensures 'A' <= c <= 'Z' <==> c in "ABCDEFGHIJKLMNOPQRSTUVWXYZ"
  {
    var s := "ABCDEFGHIJKLMNOPQRSTUVWXYZ";
    if 'A' <= c <= 'Z' {
      assert s[c as int - 'A' as int] == c;
    }
  }

  lemma DecimalDigit(c: char)
    ensures '0' <= c <= '9' <==> c in "0123456789"
  {
    var s := "0123456789";
    if '0' <= c <= '9' {
      assert s[c as int - '0' as int] == c;
    }
  }

  /** The digits of either case, and what they stand for. */
  lemma HexValueIs(c: char)
    ensures HexChar(c) <==> c in "0123456789abcdefABCDEF"
    ensures HexChar(c) ==>
      HexValue(c) < 16 && (c == "0123456789abcdef"[HexValue(c)] || c == "0123456789ABCDEF"[HexValue(c)])
  {
    if HexChar(c) {
      assert c in "0123456789" || c in "abcdef" || c in "ABCDEF";
    }
  }

  /** The number a hex string stands for; adm_unhex keeps exactly this of it. */
  function Unhex(s: string): nat
    requires IsHex(s)
  {
    if s == [] then 0 else 16 * Unhex(s[..|s| - 1]) + HexValue(s[|s| - 1])
  }

  function Power16(k: nat): nat {
    if k == 0 then 1 else 16 * Power16(k - 1)
  }

  /** n digits stand for the numbers below 16^n, and two strings for one number only if their digits mean the same. */
  lemma {:induction false} UnhexIs(s: string, t: string)
    requires IsHex(s) && IsHex(t) && |s| == |t|
    ensures Unhex(s) < Power16(|s|)
    ensures Unhex(s) == Unhex(t) <==> forall i | 0 <= i < |s| :: HexValue(s[i]) == HexValue(t[i])
  {
    hide HexValue;
    hide HexChar;
    if s != [] {
      var n := |s| - 1;
      UnhexIs(s[..n], t[..n]);
      HexValueIs(s[n]);
      HexValueIs(t[n]);
      assert forall i | 0 <= i < n :: s[..n][i] == s[i] && t[..n][i] == t[i];
    }
  }

  /** printf's %lld. */
  function Digits(n: nat): string {
    if n < 10 then ["0123456789"[n]] else Digits(n / 10) + ["0123456789"[n % 10]]
  }

  function Signed(n: int): string {
    if n < 0 then "-" + Digits(-n) else Digits(n)
  }

  /** The string adm_mac prints. */
  function Printed(job: string, exp: int, nonceHex: string, bodyHex: string): string {
    LABEL + "\n" + job + "\n" + Signed(exp) + "\n" + nonceHex + "\n" + bodyHex + "\n"
  }

  /** The string it signs: what fits its buffer. */
  function MacInput(job: string, exp: int, nonceHex: string, bodyHex: string): string {
    var msg := Printed(job, exp, nonceHex, bodyHex);
    if |msg| >= MSG_CAP then msg[..MSG_CAP - 1] else msg
  }

  /** At most 511 characters are signed, and all of them where that many were printed or fewer. */
  lemma SignedPart(job: string, exp: int, nonceHex: string, bodyHex: string)
    ensures var msg, input := Printed(job, exp, nonceHex, bodyHex), MacInput(job, exp, nonceHex, bodyHex);
      input <= msg && |input| == if |msg| < 511 then |msg| else 511
  {
    hide Printed;
  }

  predicate Hex(s: string, n: nat) {
    |s| == n && IsHex(s)
  }

  predicate OneLine(s: string) {
    forall i | 0 <= i < |s| :: s[i] != '\n'
  }

  lemma {:induction false} DigitsAreDigits(n: nat)
    ensures |Digits(n)| > 0 && forall i | 0 <= i < |Digits(n)| :: '0' <= Digits(n)[i] <= '9'
  {
    if n >= 10 {
      DigitsAreDigits(n / 10);
    }
  }

  lemma {:induction false} DigitsInjective(n: nat, m: nat)
    requires Digits(n) == Digits(m)
    ensures n == m
    decreases n
  {
    DigitsAreDigits(n / 10);
    DigitsAreDigits(m / 10);
    var s, t := Digits(n), Digits(m);
    if n >= 10 && m >= 10 {
      assert s[..|s| - 1] == Digits(n / 10) && t[..|t| - 1] == Digits(m / 10);
      DigitsInjective(n / 10, m / 10);
      LastDigit(n % 10, m % 10, s[|s| - 1]);
    } else if n < 10 && m < 10 {
      LastDigit(n, m, s[0]);
    }
  }

  lemma LastDigit(a: nat, b: nat, c: char)
    requires a < 10 && b < 10 && "0123456789"[a] == c && "0123456789"[b] == c
    ensures a == b
  {
    assert "0123456789"[a] == '0' + a as char && "0123456789"[b] == '0' + b as char;
  }

  lemma SignedStarts(n: int)
    ensures |Signed(n)| > 0 && (n < 0 <==> Signed(n)[0] == '-')
    ensures n < 0 ==> Signed(n)[1..] == Digits(-n)
    ensures n >= 0 ==> Signed(n) == Digits(n)
  {
    hide Digits;
    DigitsAreDigits(if n < 0 then -n else n);
  }

  lemma SignedInjective(n: int, m: int)
    requires Signed(n) == Signed(m)
    ensures n == m
  {
    hide Digits;
    hide Signed;
    SignedStarts(n);
    SignedStarts(m);
    if n < 0 {
      DigitsInjective(-n, -m);
    } else {
      DigitsInjective(n, m);
    }
  }

  lemma SignedOneLine(n: int)
    ensures OneLine(Signed(n))
  {
    DigitsAreDigits(if n < 0 then -n else n);
  }

  /** The last field starts after the last newline. */
  lemma FieldSplits(a: string, b: string, a': string, b': string)
    requires OneLine(b) && OneLine(b') && a + "\n" + b == a' + "\n" + b'
    ensures a == a' && b == b'
  {
    var s := a + "\n" + b;
    assert s[|a|] == '\n' && s[|a'|] == '\n';
    assert forall i | |a| < i < |s| :: s[i] == b[i - |a| - 1];
    assert forall i | |a'| < i < |s| :: s[i] == b'[i - |a'| - 1];
    assert s[..|a|] == a && s[..|a'|] == a';
    assert s[|a| + 1..] == b && s[|a'| + 1..] == b';
  }

  /** Whatever the job id, equal printed strings have equal fields. */
  lemma PrintedInjective(job: string, exp: int, nonceHex: string, bodyHex: string,
                         job': string, exp': int, nonceHex': string, bodyHex': string)
    requires IsHex(nonceHex) && IsHex(nonceHex') && IsHex(bodyHex) && IsHex(bodyHex')
    requires Printed(job, exp, nonceHex, bodyHex) == Printed(job', exp', nonceHex', bodyHex')
    ensures job == job' && exp == exp' && nonceHex == nonceHex' && bodyHex == bodyHex'
  {
    hide Signed;
    SignedOneLine(exp);
    SignedOneLine(exp');
    var t1, t1' := LABEL + "\n" + job, LABEL + "\n" + job';
    var t2, t2' := t1 + "\n" + Signed(exp), t1' + "\n" + Signed(exp');
    var t3, t3' := t2 + "\n" + nonceHex, t2' + "\n" + nonceHex';
    var t4, t4' := t3 + "\n" + bodyHex, t3' + "\n" + bodyHex';
    assert t4 + "\n" + [] == t4 + "\n" && t4' + "\n" + [] == t4' + "\n";
    FieldSplits(t4, [], t4', []);
    FieldSplits(t3, bodyHex, t3', bodyHex');
    FieldSplits(t2, nonceHex, t2', nonceHex');
    FieldSplits(t1, Signed(exp), t1', Signed(exp'));
    SignedInjective(exp, exp');
    assert t1[|LABEL| + 1..] == job && t1'[|LABEL| + 1..] == job';
  }

  // ----- The cut -----

  function Power10(k: nat): nat {
    if k == 0 then 1 else 10 * Power10(k - 1)
  }

  lemma {:induction false} DigitsShort(n: nat, k: nat)
    requires k > 0 && n < Power10(k)
    ensures |Digits(n)| <= k
  {
    if n >= 10 {
      DigitsShort(n / 10, k - 1);
    }
  }

  lemma NineteenDigits()
    ensures LLONG_MAX + 1 < Power10(19)
  {
    assert Power10(4) == 10_000;
    assert Power10(8) == 10_000 * Power10(4);
    assert Power10(12) == 10_000 * Power10(8);
    assert Power10(16) == 10_000 * Power10(12);
    assert Power10(19) == 1_000 * Power10(16);
  }

  lemma SignedLength(n: int)
    requires InLong(n)
    ensures |Signed(n)| <= 20
  {
    hide Digits;
    hide Power10;
    NineteenDigits();
    DigitsShort(if n < 0 then -n else n, 19);
  }

  lemma PrintedLength(job: string, exp: int, nonceHex: string, bodyHex: string)
    requires Hex(nonceHex, 32) && Hex(bodyHex, 64)
    ensures var msg := Printed(job, exp, nonceHex, bodyHex);
      |msg| == |job| + |Signed(exp)| + 123 && msg[|msg| - 1] == '\n' && msg[|msg| - 2] == bodyHex[63]
  {
    hide Signed;
    hide IsHex;
  }

  /** The room that a job id and a printed expiry share before the cut takes more than the last newline. */
  const ROOM: nat := 389

  /** What is printed can be read off what is signed. */
  lemma PrintedFromSigned(job: string, exp: int, nonceHex: string, bodyHex: string)
    requires Hex(nonceHex, 32) && Hex(bodyHex, 64) && |job| + |Signed(exp)| <= ROOM
    ensures var input := MacInput(job, exp, nonceHex, bodyHex);
      && input != []
      && Printed(job, exp, nonceHex, bodyHex) == if input[|input| - 1] == '\n' then input else input + "\n"
  {
    hide Printed;
    hide Signed;
    PrintedLength(job, exp, nonceHex, bodyHex);
    assert HexChar(bodyHex[63]);
    var msg := Printed(job, exp, nonceHex, bodyHex);
    assert msg == msg[..|msg| - 1] + "\n";
  }

  /**
   * Equal signed strings mean equal tickets as long as the job id and the expiry leave room. The source asks for the
   * charset of job ids to have this; their length is what matters.
   */
  lemma MacInputInjective(job: string, exp: int, nonceHex: string, bodyHex: string,
                          job': string, exp': int, nonceHex': string, bodyHex': string)
    requires Hex(nonceHex, 32) && Hex(nonceHex', 32) && Hex(bodyHex, 64) && Hex(bodyHex', 64)
    requires |job| + |Signed(exp)| <= ROOM && |job'| + |Signed(exp')| <= ROOM
    requires MacInput(job, exp, nonceHex, bodyHex) == MacInput(job', exp', nonceHex', bodyHex')
    ensures job == job' && exp == exp' && nonceHex == nonceHex' && bodyHex == bodyHex'
  {
    hide MacInput;
    hide Printed;
    hide Signed;
    PrintedFromSigned(job, exp, nonceHex, bodyHex);
    PrintedFromSigned(job', exp', nonceHex', bodyHex');
    PrintedInjective(job, exp, nonceHex, bodyHex, job', exp', nonceHex', bodyHex');
  }

  /** With one character more, the last digit of the body hash is not signed. */
  lemma CutLosesDigit(job: string, exp: int, nonceHex: string, stem: string, c: char, c': char)
    requires Hex(nonceHex, 32) && Hex(stem + [c], 64) && Hex(stem + [c'], 64)
    requires |job| + |Signed(exp)| > ROOM
    ensures MacInput(job, exp, nonceHex, stem + [c]) == MacInput(job, exp, nonceHex, stem + [c'])
  {
    hide Signed;
    hide IsHex;
    var front := LABEL + "\n" + job + "\n" + Signed(exp) + "\n" + nonceHex + "\n" + stem;
    PrintedSplits(job, exp, nonceHex, stem, c);
    PrintedSplits(job, exp, nonceHex, stem, c');
    hide Printed;
    assert (front + [c] + "\n")[..511] == front[..511] == (front + [c'] + "\n")[..511];
  }

  lemma PrintedSplits(job: string, exp: int, nonceHex: string, stem: string, c: char)
    ensures Printed(job, exp, nonceHex, stem + [c]) ==
            (LABEL + "\n" + job + "\n" + Signed(exp) + "\n" + nonceHex + "\n" + stem) + [c] + "\n"
  {
    hide Signed;
    var front := LABEL + "\n" + job + "\n" + Signed(exp) + "\n" + nonceHex + "\n";
    assert front + (stem + [c]) == front + stem + [c];
  }

  /** Tickets whose job ids have at most that many characters never share a signed string. */
  ghost predicate InjectiveUpTo(length: nat) {
    forall job, exp, n, b, job', exp', n', b' |
      && |job| <= length && |job'| <= length && InLong(exp) && InLong(exp')
      && Hex(n, 32) && Hex(n', 32) && Hex(b, 64) && Hex(b', 64)
      && MacInput(job, exp, n, b) == MacInput(job', exp', n', b') ::
      job == job' && exp == exp' && n == n' && b == b'
  }

  lemma LongestExpiry()
    ensures |Signed(LLONG_MIN)| == 20
  {
    hide Digits;
    hide Power10;
    SignedLength(LLONG_MIN);
    EighteenDigits();
    DigitsLong(-LLONG_MIN, 18);
  }

  lemma EighteenDigits()
    ensures -LLONG_MIN >= Power10(18)
  {
    assert Power10(4) == 10_000;
    assert Power10(8) == 10_000 * Power10(4);
    assert Power10(12) == 10_000 * Power10(8);
    assert Power10(16) == 10_000 * Power10(12);
    assert Power10(18) == 100 * Power10(16);
  }

  lemma {:induction false} DigitsLong(n: nat, k: nat)
    requires n >= Power10(k)
    ensures |Digits(n)| > k
  {
    if k > 0 {
      DigitsLong(n / 10, k - 1);
    }
  }

  lemma ShortIsInjective(length: nat)
    requires length <= 369
    ensures InjectiveUpTo(length)
  {
    hide MacInput;
    hide Signed;
    forall job, exp, n, b, job', exp', n', b' |
      && |job| <= length && |job'| <= length && InLong(exp) && InLong(exp')
      && Hex(n, 32) && Hex(n', 32) && Hex(b, 64) && Hex(b', 64)
      && MacInput(job, exp, n, b) == MacInput(job', exp', n', b')
      ensures job == job' && exp == exp' && n == n' && b == b'
    {
      SignedLength(exp);
      SignedLength(exp');
      MacInputInjective(job, exp, n, b, job', exp', n', b');
    }
  }

  lemma LongIsNot(length: nat)
    requires length > 369
    ensures !InjectiveUpTo(length)
  {
    hide MacInput;
    hide Signed;
    var job: string, n: string, stem: string := seq(370, _ => 'a'), seq(32, _ => '0'), seq(63, _ => '0');
    LongestExpiry();
    CutLosesDigit(job, LLONG_MIN, n, stem, '0', '1');
    assert (stem + ['0'])[63] == '0' && (stem + ['1'])[63] == '1';
  }

  /** The exact length: 369 characters, far above the 64 that adm_job_ok allows. */
  lemma InjectiveExactlyUpTo369(length: nat)
    ensures InjectiveUpTo(length) <==> length <= 369
  {
    hide InjectiveUpTo;
    if length <= 369 {
      ShortIsInjective(length);
    } else {
      LongIsNot(length);
    }
  }
}
