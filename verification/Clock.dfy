/** The date and time registers: binary-coded decimal, one register a field. */
module Clock {
  import opened Bytes
  import opened CmosStore
  import opened StoreLaws

  datatype Time = Time(year: nat, month: nat, day: nat, hour: nat, minute: nat, second: nat, nanosecond: nat)

  /** The widths of the fields: 16 bits for the year, 8 for each of the others used here. */
  predicate InWidth(t: Time)
  {
    t.year < WORD && t.month < 256 && t.day < 256 && t.hour < 256 && t.minute < 256 && t.second < 256
  }

  /** Two decimal digits packed in a byte; a tens digit above 15 is cut. */
  function DecToBcd(d: nat): (r: nat)
    requires d < 256
    ensures r < 256
  {
    ((d / 10) * 16 + d % 10) % 256
  }

  function BcdToDec(b: nat): (r: nat)
    requires b < 256
    ensures r < 256
  {
    (b / 16) * 10 + b % 16
  }

  /** Through the packing and back, a byte comes out reduced by 160. */
  lemma BcdRoundTrip(d: nat)
    requires d < 256
    ensures BcdToDec(DecToBcd(d)) == d % 160
  {
    hide BcdToDec, DecToBcd;
    var tens, units := d / 10, d % 10;
    PackedDigits(d, tens, units);
    if tens < 16 {
      Unpacked(tens, units);
      SmallRemainder(d);
    } else {
      Unpacked(tens - 16, units);
      LargeRemainder(d);
    }
  }

  /** The packed byte, from the digits; a tens digit above 15 loses 16. */
  lemma PackedDigits(d: nat, tens: nat, units: nat)
    requires d < 256 && tens == d / 10 && units == d % 10
    ensures d == tens * 10 + units
    ensures tens < 16 ==> DecToBcd(d) == tens * 16 + units
    ensures tens >= 16 ==> DecToBcd(d) == (tens - 16) * 16 + units
  {
    if tens < 16 {
      Nibbles(tens, units);
    } else {
      Nibbles(tens - 16, units);
      assert tens * 16 + units == (tens - 16) * 16 + units + 256;
    }
  }

  /** Two digits come back from their nibbles. */
  lemma Unpacked(tens: nat, units: nat)
    requires tens < 16 && units < 10
    ensures BcdToDec(tens * 16 + units) == tens * 10 + units
  {
    Nibbles(tens, units);
  }

  lemma SmallRemainder(d: nat)
    requires d < 160
    ensures d % 160 == d
  {
  }

  lemma LargeRemainder(d: nat)
    requires 160 <= d < 256
    ensures d % 160 == d - 160
  {
  }

  lemma Nibbles(high: nat, low: nat)
    requires high < 16 && low < 16
    ensures (high * 16 + low) % 256 == high * 16 + low
    ensures (high * 16 + low) / 16 == high && (high * 16 + low) % 16 == low
  {
  }

  const STOPPED: bv8 := 0x80
  const CONTROL: nat := 0xb

  function ClockByte(d: nat): bv8
    requires d < 256
  {
    Low(DecToBcd(d))
  }

  lemma PackedNibbles(d: nat)
    requires d < 256
    ensures DecToBcd(d) / 16 == d / 10 % 16 && DecToBcd(d) % 16 == d % 10
  {
    hide DecToBcd;
    var tens, units := d / 10, d % 10;
    PackedDigits(d, tens, units);
    if tens < 16 {
      Nibbles(tens, units);
    } else {
      Nibbles(tens - 16, units);
    }
  }

  /** The byte's nibbles are the two decimal digits; a tens digit above 15 loses 16. */
  lemma ClockDigits(d: nat)
    requires d < 256
    ensures ClockByte(d) as nat / 16 == d / 10 % 16 && ClockByte(d) as nat % 16 == d % 10
  {
    hide DecToBcd, Low;
    PackedNibbles(d);
    ByteRoundTrip(DecToBcd(d));
    LowOfByte(DecToBcd(d));
  }

  lemma LowOfByte(n: nat)
    requires n < 256
    ensures Low(n) == n as bv8
  {
  }

  ghost function WithField(s: State, register: nat, d: nat): (r: State)
    requires s.Valid() && register < REGISTER_SPACE && d < 256
    ensures r.Valid() && r.cfg == s.cfg
  {
    s.Put(Hardware, register, ClockByte(d))
  }

  /** The fields written, from the century down. */
  ghost function FieldsWritten(s: State, t: Time): (r: State)
    requires s.Valid() && s.cfg.ClockValid() && InWidth(t)
    ensures r.Valid() && r.cfg == s.cfg
  {
    assert s.cfg.century in s.cfg.reachable;
    var s2 := WithField(WithField(s, s.cfg.century, (t.year / 100) % 256), 9, t.year % 100);
    var s3 := WithField(WithField(WithField(s2, 8, t.month), 7, t.day), 4, t.hour);
    WithField(WithField(s3, 2, t.minute), 0, t.second)
  }

  /** Stop the clock, write the fields, start the clock. */
  ghost function TimeSet(s: State, t: Time): (r: State)
    requires s.Valid() && s.cfg.ClockValid() && InWidth(t)
    ensures r.Valid() && r.cfg == s.cfg
  {
    var s1 := s.Put(Hardware, CONTROL, WithBits(s.phys[CONTROL], STOPPED));
    var s2 := FieldsWritten(s1, t);
    s2.Put(Hardware, CONTROL, WithoutBits(s2.phys[CONTROL], STOPPED))
  }

  ghost function FieldOf(s: State, register: nat): (d: nat)
    requires s.Valid() && register < REGISTER_SPACE
    ensures d < 256
  {
    BcdToDec(s.phys[register] as nat)
  }

  ghost function TimeRead(s: State): (t: Time)
    requires s.Valid() && s.cfg.ClockValid()
  {
    assert s.cfg.century in s.cfg.reachable;
    Time(FieldOf(s, s.cfg.century) * 100 + FieldOf(s, 9), FieldOf(s, 8), FieldOf(s, 7),
         FieldOf(s, 4), FieldOf(s, 2), FieldOf(s, 0), 0)
  }

  lemma FieldReadBack(d: nat)
    requires d < 256
    ensures BcdToDec(ClockByte(d) as nat) == d % 160
  {
    BcdRoundTrip(d);
    ByteRoundTrip(DecToBcd(d));
  }

  lemma FieldsRegisters(s: State, t: Time)
    requires s.Valid() && s.cfg.ClockValid() && InWidth(t)
    ensures var p := FieldsWritten(s, t).phys;
      && s.cfg.century < REGISTER_SPACE && s.cfg.century != CONTROL
      && p[s.cfg.century] == ClockByte((t.year / 100) % 256) && p[9] == ClockByte(t.year % 100)
      && p[8] == ClockByte(t.month) && p[7] == ClockByte(t.day) && p[4] == ClockByte(t.hour)
      && p[2] == ClockByte(t.minute) && p[0] == ClockByte(t.second)
  {
    hide ClockByte;
    assert s.cfg.century in s.cfg.reachable;
  }

  /** What each register holds after the writes. */
  lemma TimeSetRegisters(s: State, t: Time)
    requires s.Valid() && s.cfg.ClockValid() && InWidth(t)
    ensures var r := TimeSet(s, t); var p := r.phys;
      && s.cfg.century < REGISTER_SPACE
      && p[s.cfg.century] == ClockByte((t.year / 100) % 256) && p[9] == ClockByte(t.year % 100)
      && p[8] == ClockByte(t.month) && p[7] == ClockByte(t.day) && p[4] == ClockByte(t.hour)
      && p[2] == ClockByte(t.minute) && p[0] == ClockByte(t.second)
  {
    hide ClockByte, WithBits, WithoutBits, FieldsWritten, Layout.Valid, Layout.ClockValid;
    FieldsRegisters(s.Put(Hardware, CONTROL, WithBits(s.phys[CONTROL], STOPPED)), t);
  }

  /** The time that comes back: each byte reduced by 160, and no nanoseconds. */
  function Echo(t: Time): Time
  {
    Time((t.year / 100) % 256 % 160 * 100 + t.year % 100 % 160,
         t.month % 160, t.day % 160, t.hour % 160, t.minute % 160, t.second % 160, 0)
  }

  lemma TimeEchoes(s: State, t: Time)
    requires s.Valid() && s.cfg.ClockValid() && InWidth(t)
    ensures TimeRead(TimeSet(s, t)) == Echo(t)
  {
    hide TimeSet, ClockByte, BcdToDec;
    TimeSetRegisters(s, t);
    FieldReadBack((t.year / 100) % 256);
    FieldReadBack(t.year % 100);
    FieldReadBack(t.month);
    FieldReadBack(t.day);
    FieldReadBack(t.hour);
    FieldReadBack(t.minute);
    FieldReadBack(t.second);
  }

  lemma EchoIsExact(t: Time)
    requires InWidth(t)
    ensures Echo(t) == t.(nanosecond := 0) <==>
            t.year < 16000 && t.month < 160 && t.day < 160 && t.hour < 160 && t.minute < 160 && t.second < 160
  {
    YearFromParts(t.year);
  }

  /**
   Setting the time and reading it back, with no tick in between, gives the time
   set exactly when the year is below 16000 and every other field below 160.
   */
  lemma TimeRoundTrip(s: State, t: Time)
    requires s.Valid() && s.cfg.ClockValid() && InWidth(t)
    ensures TimeRead(TimeSet(s, t)) == t.(nanosecond := 0) <==>
            t.year < 16000 && t.month < 160 && t.day < 160 && t.hour < 160 && t.minute < 160 && t.second < 160
  {
    hide TimeSet, TimeRead, Echo;
    TimeEchoes(s, t);
    EchoIsExact(t);
  }

  lemma YearFromParts(y: nat)
    requires y < WORD
    ensures (y / 100) % 256 % 160 * 100 + y % 100 % 160 == y <==> y < 16000
  {
    assert y % 100 % 160 == y % 100;
    assert y == (y / 100) * 100 + y % 100;
    var c := (y / 100) % 256 % 160;
    assert c < 160;
    assert c * 100 + y % 100 == y <==> c == y / 100;
  }

  /** The clock ends running with its other control bits kept; nothing managed is touched. */
  lemma TimeSetKeeps(s: State, t: Time)
    requires s.Valid() && s.cfg.ClockValid() && InWidth(t)
    ensures var r := TimeSet(s, t);
      && r.phys[CONTROL] == WithoutBits(s.phys[CONTROL], STOPPED)
      && r.buf == s.buf && r.status == s.status && AgreeOff(s, r, {})
      && (r.Coherent() <==> s.Coherent())
  {
    hide TimeSet, WithBits, WithoutBits;
    TimeSetAway(s, t);
    CoherentFollowsViews(s, TimeSet(s, t));
    StopThenStart(s.phys[CONTROL]);
  }

  /** Only registers outside the region differ, and the control register does not. */
  ghost predicate Away(s: State, q: State)
  {
    && s.Valid() && q.Valid() && q.cfg == s.cfg && q.buf == s.buf && q.status == s.status && q.hob == s.hob
    && AgreeOff(s, q, {}) && q.phys[CONTROL] == s.phys[CONTROL]
  }

  lemma PutIsAway(s: State, register: nat, b: bv8)
    requires s.Valid() && register < REGISTER_SPACE && !s.cfg.InRegion(register)
    ensures var q := s.Put(Hardware, register, b);
      && q.buf == s.buf && q.status == s.status && q.hob == s.hob && AgreeOff(s, q, {})
      && q.phys[CONTROL] == if register == CONTROL then b else s.phys[CONTROL]
  {
    PutAgrees(s, Hardware, register, b);
  }

  lemma FieldIsAway(s: State, q: State, register: nat, d: nat)
    requires Away(s, q) && register < REGISTER_SPACE && !s.cfg.InRegion(register) && register != CONTROL && d < 256
    ensures Away(s, WithField(q, register, d))
  {
    hide ClockByte, State.Put, Layout.Valid;
    PutIsAway(q, register, ClockByte(d));
  }

  lemma ClockIsAway(l: Layout)
    requires l.Valid() && l.ClockValid()
    ensures l.century < REGISTER_SPACE && !l.InRegion(l.century) && l.century != CONTROL
    ensures forall a: nat :: a <= CONTROL ==> !l.InRegion(a)
  {
    assert l.century in l.reachable;
  }

  lemma TimeSetAway(s: State, t: Time)
    requires s.Valid() && s.cfg.ClockValid() && InWidth(t)
    ensures var r := TimeSet(s, t);
      && r.phys[CONTROL] == WithoutBits(WithBits(s.phys[CONTROL], STOPPED), STOPPED)
      && r.buf == s.buf && r.status == s.status && r.hob == s.hob && AgreeOff(s, r, {})
  {
    hide WithField, WithBits, WithoutBits, State.Put, Away, Layout.Valid, Layout.ClockValid;
    ClockIsAway(s.cfg);
    var s1 := s.Put(Hardware, CONTROL, WithBits(s.phys[CONTROL], STOPPED));
    PutIsAway(s, CONTROL, WithBits(s.phys[CONTROL], STOPPED));
    ItselfIsAway(s1);
    FieldIsAway(s1, s1, s.cfg.century, (t.year / 100) % 256);
    var c := WithField(s1, s.cfg.century, (t.year / 100) % 256);
    FieldIsAway(s1, c, 9, t.year % 100);
    var y := WithField(c, 9, t.year % 100);
    FieldIsAway(s1, y, 8, t.month);
    FieldIsAway(s1, WithField(y, 8, t.month), 7, t.day);
    var d := WithField(WithField(y, 8, t.month), 7, t.day);
    FieldIsAway(s1, d, 4, t.hour);
    FieldIsAway(s1, WithField(d, 4, t.hour), 2, t.minute);
    var m := WithField(WithField(d, 4, t.hour), 2, t.minute);
    FieldIsAway(s1, m, 0, t.second);
    RestartIsAway(s, s1, WithField(m, 0, t.second));
  }

  lemma ItselfIsAway(s: State)
    requires s.Valid()
    ensures Away(s, s)
  {
  }

  lemma RestartIsAway(s: State, s1: State, q: State)
    requires s.Valid() && Away(s1, q) && s1.cfg == s.cfg && s1.buf == s.buf && s1.status == s.status && s1.hob == s.hob
    requires AgreeOff(s, s1, {})
    ensures var r := q.Put(Hardware, CONTROL, WithoutBits(q.phys[CONTROL], STOPPED));
      && r.phys[CONTROL] == WithoutBits(s1.phys[CONTROL], STOPPED)
      && r.buf == s.buf && r.status == s.status && r.hob == s.hob && AgreeOff(s, r, {})
  {
    hide State.Put, WithoutBits;
    PutIsAway(q, CONTROL, WithoutBits(q.phys[CONTROL], STOPPED));
  }

  lemma StoppedOrNot(c: bv8)
    ensures WithBits(c, STOPPED) & 0x80 != 0 && WithoutBits(c, STOPPED) & 0x80 == 0
  {
  }

  lemma StopThenStart(c: bv8)
    ensures WithoutBits(WithBits(c, STOPPED), STOPPED) == WithoutBits(c, STOPPED)
  {
  }
}
