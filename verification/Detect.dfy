/** Which device family a connection belongs to, decided once from its first bytes. */
module Detect {
  import opened Common
  import opened Bytes
  import opened Framing
  import Gt06
  import Gps103
  import TeltonikaStream

  datatype Family = GT06 | GPS103 | TELTONIKA

  const HASHES: Bytes := [0x23, 0x23]                            // "##"
  const IMEI_TAG: Bytes := [0x69, 0x6D, 0x65, 0x69, 0x3A]        // "imei:"

  function Sniff(b: Bytes): Option<Family> {
    if |b| < 2 then None
    else if b[..2] == Gt06.SHORT_HEADER || b[..2] == Gt06.LONG_HEADER then Some(GT06)
    else if HASHES <= b || IMEI_TAG <= b then Some(GPS103)
    else if b[..2] == TeltonikaStream.LOGIN_PREFIX
            && TeltonikaStream.Digits(b[2..if |b| < 17 then |b| else 17]) then Some(TELTONIKA)
    else None
  }

  function DetectProtocol(b: Bytes, enabled: set<Family>): Option<Family> {
    if Sniff(b).Some? && Sniff(b).value in enabled then Sniff(b) else None
  }

  /**
   Which greeting opens which family: 78 78 or 79 79, "##" or "imei:", and
   00 0F with nothing but digits among the fifteen bytes behind it.
   */
  lemma RecognisedExactly(b: Bytes)
    ensures Sniff(b) == Some(GT06) <==>
      |b| >= 2 && ((b[0] == 0x78 && b[1] == 0x78) || (b[0] == 0x79 && b[1] == 0x79))
    ensures Sniff(b) == Some(GPS103) <==>
      || (|b| >= 2 && b[0] == 0x23 && b[1] == 0x23)
      || (|b| >= 5 && b[0] == 0x69 && b[1] == 0x6D && b[2] == 0x65 && b[3] == 0x69 && b[4] == 0x3A)
    ensures Sniff(b) == Some(TELTONIKA) <==>
      |b| >= 2 && b[0] == 0x00 && b[1] == 0x0F && forall i :: 2 <= i < 17 && i < |b| ==> 0x30 <= b[i] <= 0x39
  {
    hide TeltonikaStream.Digits;
    if |b| >= 2 {
      assert b[..2] == [b[0], b[1]];
      LoginDigits(b);
    }
    if |b| >= 5 {
      assert b[..5] == [b[0], b[1], b[2], b[3], b[4]];
      assert IMEI_TAG <= b <==> b[..5] == IMEI_TAG;
    }
  }

  lemma LoginDigits(b: Bytes)
    requires |b| >= 2
    ensures TeltonikaStream.Digits(b[2..if |b| < 17 then |b| else 17]) <==>
      forall i :: 2 <= i < 17 && i < |b| ==> 0x30 <= b[i] <= 0x39
  {
    var d := b[2..if |b| < 17 then |b| else 17];
    assert forall i :: 0 <= i < |d| ==> d[i] == b[i + 2];
    if TeltonikaStream.Digits(d) {
      forall i | 2 <= i < 17 && i < |b|
        ensures 0x30 <= b[i] <= 0x39
      {
        assert b[i] == d[i - 2] && d[i - 2] in d;
      }
    }
  }

  /** The framer and its limit for each family, as the pipeline table pairs them. */
  datatype Limits = Limits(gps103Unframed: nat, teltonikaPacket: nat)

  function DecideFor(f: Family, l: Limits): Decide {
    match f
    case GT06 => Gt06.Decide
    case GPS103 => Gps103.Decide
    case TELTONIKA => TeltonikaStream.Decider(l.teltonikaPacket)
  }

  function LimitFor(f: Family, l: Limits): Limit {
    if f.GPS103? then AtMost(l.gps103Unframed) else Unlimited
  }

  lemma FamiliesFrame(f: Family, l: Limits)
    ensures Advances(DecideFor(f, l)) && Settled(DecideFor(f, l)) && Framer(DecideFor(f, l))
    ensures DecideFor(f, l)([]).More?
  {
    hide Advances, Settled, Framer;
    Gt06.DecideIsFramer();
    Gps103.DecideIsFramer();
    TeltonikaStream.DeciderIsFramer(l.teltonikaPacket);
  }

  /**
   Five bytes are enough: what the first five or more bytes of a stream are
   recognised as is what the whole stream would be recognised as, except that
   a stream cut inside a would-be Teltonika login may still turn out not to be
   one, and then its framer refuses it without handing out a frame.
   */
  lemma DetectionIndependentOfCut(first: Bytes, more: Bytes, l: Limits)
    requires |first| >= 5
    ensures Sniff(first + more).Some? ==> Sniff(first) == Sniff(first + more)
    ensures Sniff(first).Some? && Sniff(first + more) != Sniff(first) ==>
      && Sniff(first) == Some(TELTONIKA)
      && Advances(DecideFor(TELTONIKA, l))
      && var s := Scan(DecideFor(TELTONIKA, l), first + more);
      s.frames == [] && (|first + more| >= 17 ==> s.rejected)
  {
    hide TeltonikaStream.Digits, Advances, Settled;
    FamiliesFrame(TELTONIKA, l);
    var whole := first + more;
    assert whole[..2] == first[..2];
    assert HASHES <= whole <==> HASHES <= first;
    assert IMEI_TAG <= whole <==> IMEI_TAG <= first;
    var n := if |first| < 17 then |first| else 17;
    var m := if |whole| < 17 then |whole| else 17;
    assert whole[2..m] == first[2..n] + whole[n..m];
    DigitsSplit(first[2..n], whole[n..m]);
    if |whole| < 17 {
      LoginIncomplete(whole, l);
    } else {
      LoginRefused(whole, l);
    }
  }

  lemma DigitsSplit(a: Bytes, b: Bytes)
    ensures TeltonikaStream.Digits(a + b) <==> TeltonikaStream.Digits(a) && TeltonikaStream.Digits(b)
  {
    if TeltonikaStream.Digits(a + b) {
      assert forall x :: x in a ==> x in a + b;
      assert forall x :: x in b ==> x in a + b;
    }
  }

  lemma LoginIncomplete(b: Bytes, l: Limits)
    requires Advances(DecideFor(TELTONIKA, l))
    requires 4 <= |b| < 17
    ensures b[..2] == TeltonikaStream.LOGIN_PREFIX ==>
      Scan(DecideFor(TELTONIKA, l), b) == Scanned([], b, false)
  {
    hide Advances;
  }

  lemma LoginRefused(b: Bytes, l: Limits)
    requires Advances(DecideFor(TELTONIKA, l))
    requires |b| >= 17
    ensures b[..2] == TeltonikaStream.LOGIN_PREFIX && !TeltonikaStream.Digits(b[2..17]) ==>
      Scan(DecideFor(TELTONIKA, l), b) == Scanned([], b, true)
  {
    hide Advances;
  }
}
