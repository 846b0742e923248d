/** Exactly which texts consume reads as a ticket, and as which: the language of src/common/admission.c's parser. */
module AdmissionSpelling {

  import opened AdmissionText
  import opened AdmissionTicket
  import opened Options

  // ----- Numbers as strtoll reads them -----

  /** White space of the C locale, one sign or none, and digits. */
  ghost predicate Spells(s: string, space: string, sign: string, digits: string) {
    && s == space + (sign + digits)
    && (forall i | 0 <= i < |space| :: space[i] in " \t\r" || space[i] as int in {10, 11, 12})
    && sign in {"", "+", "-"} && digits != [] && AllDigits(digits)
  }

  /** The number, held to the range of a long long. */
  function Read(sign: string, digits: string): int
    requires AllDigits(digits)
  {
    var v := if sign == "-" then -(Value(digits) as int) else Value(digits);
    if v > 0x7FFF_FFFF_FFFF_FFFF then 0x7FFF_FFFF_FFFF_FFFF
    else if v < -0x8000_0000_0000_0000 then -0x8000_0000_0000_0000
    else v
  }

  ghost predicate SpellsLong(s: string, v: int) {
    exists space, sign, digits :: Spells(s, space, sign, digits) && v == Read(sign, digits)
  }

  lemma SpaceIs(c: char)
    ensures IsSpace(c) <==> c in " \t\r" || c as int in {10, 11, 12}
  {
    assert '\t' as int == 9 && '\r' as int == 13 && ' ' as int == 32;
  }

  lemma {:induction false} SkipsSpace(space: string, rest: string)
    requires (forall i | 0 <= i < |space| :: IsSpace(space[i])) && rest != [] && !IsSpace(rest[0])
    ensures SkipSpace(space + rest) == rest
  {
    if space == [] {
      assert space + rest == rest;
    } else {
      assert (space + rest)[1..] == space[1..] + rest;
      SkipsSpace(space[1..], rest);
    }
  }

  lemma {:induction false} SkippedSpace(s: string) returns (space: string)
    ensures (forall i | 0 <= i < |space| :: IsSpace(space[i])) && s == space + SkipSpace(s)
  {
    if s != [] && IsSpace(s[0]) {
      var rest := SkippedSpace(s[1..]);
      space := [s[0]] + rest;
      assert s == [s[0]] + s[1..] && [s[0]] + (rest + SkipSpace(s)) == space + SkipSpace(s);
    } else {
      space := [];
      assert s == [] + s;
    }
  }

  lemma SpelledParses(s: string, space: string, sign: string, digits: string)
    requires Spells(s, space, sign, digits)
    ensures ParseLong(s) == Some(Read(sign, digits))
  {
    hide Value;
    forall i | 0 <= i < |space| ensures IsSpace(space[i]) {
      SpaceIs(space[i]);
    }
    var t := sign + digits;
    assert t[0] == if sign == "" then digits[0] else sign[0];
    assert sign != "" ==> t[1..] == digits;
    assert sign == "" ==> t == digits;
    assert IsDigit(digits[0]);
    SkipsSpace(space, t);
  }

  lemma ParsedSpells(s: string)
    requires ParseLong(s).Some?
    ensures SpellsLong(s, ParseLong(s).value)
  {
    hide Value;
    hide SkipSpace;
    var space := SkippedSpace(s);
    var t := SkipSpace(s);
    var signed := t[0] == '-' || t[0] == '+';
    var sign, digits := if signed then [t[0]] else "", if signed then t[1..] else t;
    assert t == sign + digits;
    forall i | 0 <= i < |space| ensures space[i] in " \t\r" || space[i] as int in {10, 11, 12} {
      SpaceIs(space[i]);
    }
    assert Spells(s, space, sign, digits);
  }

  lemma ParseLongIff(s: string, v: int)
    ensures ParseLong(s) == Some(v) <==> SpellsLong(s, v)
  {
    hide ParseLong;
    if ParseLong(s) == Some(v) {
      ParsedSpells(s);
    }
    if space, sign, digits :| Spells(s, space, sign, digits) && v == Read(sign, digits) {
      SpelledParses(s, space, sign, digits);
    }
  }

  lemma NumberHasNoDot(s: string, v: int)
    requires SpellsLong(s, v)
    ensures s != [] && forall i | 0 <= i < |s| :: s[i] != '.'
  {
    var space, sign, digits :| Spells(s, space, sign, digits) && v == Read(sign, digits);
    forall i | 0 <= i < |s| ensures s[i] != '.' {
      if i < |space| {
        assert s[i] == space[i];
      } else if i < |space| + |sign| {
        assert s[i] == sign[i - |space|];
      } else {
        assert s[i] == digits[i - |space| - |sign|] && IsDigit(digits[i - |space| - |sign|]);
      }
    }
  }

  // ----- The whole ticket -----

  /** The text is the prefix and the five fields between dots, its expiry spelled in at most 23 characters. */
  ghost predicate IsTicket(s: string, f: Fields, exp: string) {
    && Proper(f) && |exp| < 24 && SpellsLong(exp, f.exp)
    && s == "itadm1." + (f.job + ("." + (exp + ("." + (f.nonceHex + ("." + (f.bodyHex + ("." + f.macHex))))))))
  }

  lemma TicketParses(s: string, f: Fields, exp: string)
    requires IsTicket(s, f, exp)
    ensures ParseTicket(s) == Some(f)
  {
    hide Dot;
    hide ParseLong;
    hide ReadNonce;
    hide FromNonce;
    hide SpellsLong;
    var g := Fields(f.job, 0, "", "", "");
    NumberHasNoDot(exp, f.exp);
    ParseLongIff(exp, f.exp);
    DotAfter(exp, FromNonce(f));
    NonceReadsBack(g.(exp := f.exp), f);
    FieldsFollow(f);
    assert ReadExp(g, FromExp(f, exp)) == Some(f);
    hide ReadExp;
    JobHasNoDot(f.job);
    DotAfter(f.job, FromExp(f, exp));
    hide FromExp;
    assert s == Spelled(f, exp) && s[|PREFIX|..] == f.job + ("." + FromExp(f, exp)) by {
      SpelledIs(f, exp);
    }
  }

  lemma FieldsFollow(f: Fields)
    ensures FromNonce(f) == f.nonceHex + ("." + (f.bodyHex + ("." + f.macHex)))
  {
  }

  lemma SpelledIs(f: Fields, exp: string)
    ensures Spelled(f, exp) ==
      "itadm1." + (f.job + ("." + (exp + ("." + (f.nonceHex + ("." + (f.bodyHex + ("." + f.macHex))))))))
    ensures Spelled(f, exp)[|PREFIX|..] == f.job + ("." + FromExp(f, exp)) && PREFIX <= Spelled(f, exp)
  {
  }

  lemma JobHasNoDot(job: string)
    requires JobOk(job)
    ensures forall i | 0 <= i < |job| :: job[i] != '.'
  {
    forall i | 0 <= i < |job| ensures job[i] != '.' {
      assert JobChar(job[i]);
    }
  }

  lemma ExpTextIs(s: string)
    requires ParseTicket(s).Some?
    ensures |ExpText(s)| < 24 && ParseLong(ExpText(s)) == Some(ParseTicket(s).value.exp)
  {
    hide Dot;
    hide ParseLong;
    hide ReadNonce;
    var p := s[|PREFIX|..];
    var rest := p[Dot(p) + 1..];
    var f := Fields(p[..Dot(p)], 0, "", "", "").(exp := ParseLong(rest[..Dot(rest)]).value);
    ReadNonceIs(f, rest[Dot(rest) + 1..]);
  }

  /** The language: a text parses as those fields exactly when it is the prefix and them, with the expiry spelled so. */
  lemma ParsesIff(s: string, f: Fields)
    ensures ParseTicket(s) == Some(f) <==> exists exp :: IsTicket(s, f, exp)
  {
    if ParseTicket(s) == Some(f) {
      ParsedIsSpelled(s);
      ExpTextIs(s);
      hide ParseTicket;
      hide ExpText;
      ParseLongIff(ExpText(s), f.exp);
      SpelledIs(f, ExpText(s));
      hide Spelled;
      hide SpellsLong;
      hide Proper;
      assert IsTicket(s, f, ExpText(s));
    }
    if exp :| IsTicket(s, f, exp) {
      TicketParses(s, f, exp);
    }
  }
}
