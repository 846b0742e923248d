/** Where the 256 MiB limit of the fetch loops stands to the header: its length in bytes decides. */
module GgufLimit {

  import opened Bytes
  import opened GgufFetch
  import opened GgufFormat
  import opened GgufLaws
  import opened GgufSpec

  lemma HeaderInside(b: seq<Byte>, keep: bool)
    requires Parse(b, keep).Got?
    ensures Parse(b, keep).next <= |b|
  {
    hide CountsAt;
    hide KeysAt;
    hide TensorsAt;
    CountsInside(b);
  }

  lemma CountsInside(b: seq<Byte>)
    requires CountsAt(b).Got?
    ensures CountsAt(b).next <= |b|
  {
  }

  /** A probe settles a file that parses exactly when it reaches to the end of the header. */
  lemma SettledByLength(file: seq<Byte>, keep: bool, want: nat)
    requires Parse(file, keep).Got?
    ensures Parse(Probe(file, want), keep) != Fail(Short) <==> Parse(file, keep).next <= want
  {
    hide Parse;
    var p := Probe(file, want);
    HeaderInside(file, keep);
    PrefixStability(p, file, keep);
    if Parse(p, keep) != Fail(Short) {
      HeaderInside(p, keep);
    }
  }

  /** The answer for a file that parses is the same from every first probe exactly when its header ends by 256 MiB. */
  lemma ProbeMattersByLength(file: seq<Byte>, keep: bool)
    requires Parse(file, keep).Got?
    ensures ProbeIrrelevant(file, keep) <==> Parse(file, keep).next <= LIMIT
  {
    hide Parse;
    hide ProbeIrrelevant;
    ProbeMattersOnlyBeyondLimit(file, keep);
    SettledByLength(file, keep, LIMIT);
  }

  /** The same for written headers: every well-formed one beyond 256 MiB is accepted from some probes only. */
  lemma WrittenHeaderLimit(d: Document, b: seq<Byte>, keep: bool)
    requires SoundDocument(d) && HeaderBytes(d) <= b && KeysOf(d.entries, keep, Keys(32, map[])).alignment != 0
    ensures ProbeIrrelevant(b, keep) <==> |HeaderBytes(d)| <= LIMIT
  {
    hide Parse;
    hide ProbeIrrelevant;
    hide HeaderBytes;
    hide KeysOf;
    WrittenReadsBack(d, b, keep);
    ProbeMattersByLength(b, keep);
  }

  /** One metadata string of 256 MiB. */
  function LongDocument(): Document {
    Document(3, [Entry([], Str(seq(LIMIT, _ => 0)))], [])
  }

  /** Its header is such a one: the probe matters, and some probe does read it. */
  lemma LongDocumentNeedsTheRightProbe(keep: bool)
    ensures var file := HeaderBytes(LongDocument());
      && !ProbeIrrelevant(file, keep)
      && Verdict(file, keep, LastProbe(LIMIT)) == TooLarge && Verdict(file, keep, LastProbe(LIMIT + 44)).Parsed?
  {
    hide Parse;
    hide LittleEndian;
    var d := LongDocument();
    var file := HeaderBytes(d);
    LongHeader();
    hide HeaderBytes;
    WrittenReadsBack(d, file, keep);
    SettledByLength(file, keep, LIMIT);
    SettledByLength(file, keep, LIMIT + 44);
    PrefixStability(Probe(file, LIMIT + 44), file, keep);
    WrittenHeaderLimit(d, file, keep);
  }

  lemma LongHeader()
    ensures SoundDocument(LongDocument()) && |HeaderBytes(LongDocument())| == LIMIT + 44
    ensures forall keep :: KeysOf(LongDocument().entries, keep, Keys(32, map[])).alignment == 32
  {
    hide LittleEndian;
    var es := LongDocument().entries;
    assert es[1..] == [];
    assert EntriesBytes([]) == [] && EntriesBytes(es) == EntryBytes(es[0]) + [];
    assert [] != ALIGNMENT_KEY;
    forall keep ensures KeysOf(es, keep, Keys(32, map[])).alignment == 32 {
      assert KeysOf([], keep, KeyOf(es[0], keep, Keys(32, map[]))) == KeyOf(es[0], keep, Keys(32, map[]));
    }
  }
}
