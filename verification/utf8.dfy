// The string checks of the BSON library, compared with the grammar of section 4 of RFC 3629.
module Utf8 {
  import opened Bytes

  // The builder's err bit field.
  type Err = bv8
  const SIZE_OVERFLOW: Err := 1
  const NOT_UTF8: Err := 2
  const FIELD_HAS_DOT: Err := 4
  const FIELD_INIT_DOLLAR: Err := 8
  const ALREADY_FINISHED: Err := 16
  const NOT_IN_SUBOBJECT: Err := 32
  const DOES_NOT_OWN_DATA: Err := 64

  function If(b: bool, flag: Err): Err {
    if b then flag else 0
  }

  const DOT: byte := 0x2E
  const DOLLAR: byte := 0x24

  // The trailing-byte table, by its ranges.
  function Trailing(b: byte): nat {
    if b < 0xC0 then 0 else if b < 0xE0 then 1 else if b < 0xF0 then 2
    else if b < 0xF8 then 3 else if b < 0xFC then 4 else 5
  }

  predicate IsTail(b: byte) {
    0x80 <= b <= 0xBF
  }

  // The fall-through switch: every case from the length downwards is checked.
  predicate IsLegalUtf8(s: seq<byte>, p: nat, length: nat)
    requires 1 <= length && p + length <= |s|
  {
    && length <= 4
    && (length >= 4 ==> IsTail(s[p + 3]))
    && (length >= 3 ==> IsTail(s[p + 2]))
    && (length >= 2 ==>
          && s[p + 1] <= 0xBF
          && (if s[p] == 0xE0 then s[p + 1] >= 0xA0
              else if s[p] == 0xF0 then s[p + 1] >= 0x90
              else if s[p] == 0xF4 then s[p + 1] <= 0x8F
              else s[p + 1] >= 0x80))
    && !(0x80 <= s[p] < 0xC2)
    && s[p] <= 0xF4
  }

  predicate IsDbRef(s: seq<byte>) {
    if |s| >= 4 then s[1] == 0x72 && s[2] == 0x65 && s[3] == 0x66
    else |s| >= 3 && ((s[1] == 0x69 && s[2] == 0x64) || (s[1] == 0x64 && s[2] == 0x62))
  }

  // What a scan finds: a dot at the start of a unit it reaches, and a unit it rejects.
  datatype Verdict = Verdict(hasDot: bool, notUtf8: bool) {
    function WithDot(dot: bool): Verdict {
      Verdict(dot || hasDot, notUtf8)
    }
  }

  // The scan of s from position p, unit by unit, up to the first rejected unit.
  function Scan(s: seq<byte>, p: nat, checkUtf8: bool, checkDot: bool): Verdict
    decreases |s| - p
  {
    if p >= |s| then Verdict(false, false)
    else
      var dot := checkDot && s[p] == DOT;
      if !checkUtf8 then Scan(s, p + 1, checkUtf8, checkDot).WithDot(dot)
      else
        var n := Trailing(s[p]) + 1;
        if p + n > |s| || !IsLegalUtf8(s, p, n) then Verdict(dot, true)
        else Scan(s, p + n, checkUtf8, checkDot).WithDot(dot)
  }

  // A field name starting with '$' is flagged unless it is part of a db ref.
  predicate BadDollar(s: seq<byte>) {
    s != [] && s[0] == DOLLAR && !IsDbRef(s)
  }

  // err after the scan of s; flags are only ever added.
  function Flagged(err: Err, s: seq<byte>, checkUtf8: bool, checkDot: bool, checkDollar: bool): Err {
    var v := Scan(s, 0, checkUtf8, checkDot);
    err | If(checkDollar && BadDollar(s), FIELD_INIT_DOLLAR) | If(v.hasDot, FIELD_HAS_DOT) | If(v.notUtf8, NOT_UTF8)
  }

  method ValidateString(s: seq<byte>, checkUtf8: bool, checkDot: bool, checkDollar: bool, err: Err)
    returns (ok: bool, err': Err)
    ensures err' == Flagged(err, s, checkUtf8, checkDot, checkDollar)
    ensures ok <==> !Scan(s, 0, checkUtf8, checkDot).notUtf8
  {
    err' := err;
    var position, sequenceLength := 0, 1;
    if checkDollar && |s| > 0 && s[0] == DOLLAR {
      if !IsDbRef(s) {
        err' := err' | FIELD_INIT_DOLLAR;
      }
    }
    ghost var base, seen := err', false;
    FlaggedIs(err, s, checkUtf8, checkDot, checkDollar);
    hide Noted, Flagged;
    NotedIs(base, seen);
    while position < |s|
      invariant position <= |s|
      invariant !checkUtf8 ==> sequenceLength == 1
      invariant err' == Noted(base, seen, false)
      invariant Scan(s, position, checkUtf8, checkDot).WithDot(seen) == Scan(s, 0, checkUtf8, checkDot)
    {
      NotedIs(base, seen);
      if checkDot && s[position] == DOT {
        err', seen := err' | FIELD_HAS_DOT, true;
        NotedIs(base, seen);
      }
      if checkUtf8 {
        sequenceLength := Trailing(s[position]) + 1;
        if position + sequenceLength > |s| {
          err' := err' | NOT_UTF8;
          return false, err';
        }
        if !IsLegalUtf8(s, position, sequenceLength) {
          err' := err' | NOT_UTF8;
          return false, err';
        }
      }
      position := position + sequenceLength;
    }
    ok := true;
  }

  // A name is flagged for its dollar unless it starts with "$ref" or is "$id" or "$db".
  lemma DollarNames(s: seq<byte>)
    ensures BadDollar(s) <==>
            s != [] && s[0] == 0x24
            && !(|s| >= 4 && s[..4] == [0x24, 0x72, 0x65, 0x66]) && s != [0x24, 0x69, 0x64] && s != [0x24, 0x64, 0x62]
  {
    if |s| >= 4 {
      assert s[..4] == [s[0], s[1], s[2], s[3]];
    } else if |s| == 3 {
      assert s == [s[0], s[1], s[2]];
    }
  }

  // The bits that a check adds: 2 for text that is not UTF-8, 4 for a dot, 8 for a dollar; no other bit changes.
  lemma FlagBits(err: Err, s: seq<byte>, checkUtf8: bool, checkDot: bool, checkDollar: bool)
    ensures var v, e := Scan(s, 0, checkUtf8, checkDot), Flagged(err, s, checkUtf8, checkDot, checkDollar);
            && (e & 2 != 0 <==> err & 2 != 0 || v.notUtf8)
            && (e & 4 != 0 <==> err & 4 != 0 || v.hasDot)
            && (e & 8 != 0 <==> err & 8 != 0 || (checkDollar && BadDollar(s)))
            && e & 0xF1 == err & 0xF1
  {
    hide Scan, BadDollar;
  }

  // base with the marks of a scan.
  function Noted(base: Err, hasDot: bool, notUtf8: bool): Err {
    base | If(hasDot, FIELD_HAS_DOT) | If(notUtf8, NOT_UTF8)
  }

  lemma NotedIs(base: Err, seen: bool)
    ensures Noted(base, false, false) == base
    ensures Noted(base, seen, false) | FIELD_HAS_DOT == Noted(base, true, false)
    ensures Noted(base, seen, false) | NOT_UTF8 == Noted(base, seen, true)
  {
  }

  lemma FlaggedIs(err: Err, s: seq<byte>, checkUtf8: bool, checkDot: bool, checkDollar: bool)
    ensures var v, dollar := Scan(s, 0, checkUtf8, checkDot), checkDollar && BadDollar(s);
            Flagged(err, s, checkUtf8, checkDot, checkDollar)
            == Noted(if dollar then err | FIELD_INIT_DOLLAR else err, v.hasDot, v.notUtf8)
  {
  }

  // ---- Languages: all concatenations of units.

  function Flatten(parts: seq<seq<byte>>): seq<byte> {
    if parts == [] then [] else parts[0] + Flatten(parts[1..])
  }

  ghost predicate InLanguage(s: seq<byte>, unit: seq<byte> -> bool) {
    exists parts: seq<seq<byte>> :: Flatten(parts) == s && forall u :: u in parts ==> unit(u)
  }

  // The units the validator admits.
  predicate IsUnit(u: seq<byte>) {
    u != [] && |u| == Trailing(u[0]) + 1 && IsLegalUtf8(u, 0, |u|)
  }

  // UTF8-char of section 4 of RFC 3629.
  predicate IsRfcChar(u: seq<byte>) {
    match |u|
    case 1 => u[0] <= 0x7F
    case 2 => 0xC2 <= u[0] <= 0xDF && IsTail(u[1])
    case 3 =>
      && IsTail(u[2])
      && ((u[0] == 0xE0 && 0xA0 <= u[1] <= 0xBF)
          || (0xE1 <= u[0] <= 0xEC && IsTail(u[1]))
          || (u[0] == 0xED && 0x80 <= u[1] <= 0x9F)
          || (0xEE <= u[0] <= 0xEF && IsTail(u[1])))
    case 4 =>
      && IsTail(u[2]) && IsTail(u[3])
      && ((u[0] == 0xF0 && 0x90 <= u[1] <= 0xBF)
          || (0xF1 <= u[0] <= 0xF3 && IsTail(u[1]))
          || (u[0] == 0xF4 && 0x80 <= u[1] <= 0x8F))
    case _ => false
  }

  // What the validator admits beyond the RFC: surrogates, and F4 with a second byte below 80.
  predicate IsRelaxed(u: seq<byte>) {
    |u| >= 2 && ((u[0] == 0xED && u[1] >= 0xA0) || (u[0] == 0xF4 && u[1] < 0x80))
  }

  predicate Accepts(s: seq<byte>) {
    !Scan(s, 0, true, false).notUtf8
  }

  // A leading unit decides the first step of the scan; what follows it is scanned on its own.
  lemma ScanShift(u: seq<byte>, s: seq<byte>, p: nat, checkDot: bool)
    ensures Scan(u + s, |u| + p, true, checkDot) == Scan(s, p, true, checkDot)
    decreases |s| - p
  {
    if p < |s| {
      var n := Trailing(s[p]) + 1;
      assert forall i :: 0 <= i < |s| ==> (u + s)[|u| + i] == s[i];
      if p + n <= |s| {
        assert IsLegalUtf8(u + s, |u| + p, n) == IsLegalUtf8(s, p, n);
        ScanShift(u, s, p + n, checkDot);
      }
    }
  }

  lemma ScanUnit(u: seq<byte>, s: seq<byte>, checkDot: bool)
    requires IsUnit(u)
    ensures Scan(u + s, 0, true, checkDot) == Scan(s, 0, true, checkDot).WithDot(checkDot && u[0] == DOT)
  {
    ScanShift(u, s, 0, checkDot);
  }

  // An accepted string starts with a unit, and the rest of it is accepted.
  lemma AcceptedHead(s: seq<byte>)
    requires Accepts(s) && s != []
    ensures var n := Trailing(s[0]) + 1;
            n <= |s| && IsUnit(s[..n]) && Accepts(s[n..]) && s == s[..n] + s[n..]
  {
    var n := Trailing(s[0]) + 1;
    assert s == s[..n] + s[n..];
    ScanShift(s[..n], s[n..], 0, false);
  }

  // The units the scan visits, in order.
  function Units(s: seq<byte>): (parts: seq<seq<byte>>)
    requires Accepts(s)
    ensures Flatten(parts) == s
    ensures forall u :: u in parts ==> IsUnit(u)
  {
    if s == [] then []
    else
      var n := Trailing(s[0]) + 1;
      AcceptedHead(s);
      [s[..n]] + Units(s[n..])
  }

  lemma {:induction false} ScanUnits(parts: seq<seq<byte>>)
    requires forall u :: u in parts ==> IsUnit(u)
    ensures Accepts(Flatten(parts)) && Units(Flatten(parts)) == parts
  {
    if parts != [] {
      var u, rest := parts[0], Flatten(parts[1..]);
      ScanUnits(parts[1..]);
      ScanUnit(u, rest, false);
      assert (u + rest)[..|u|] == u && (u + rest)[|u|..] == rest;
    }
  }

  // The validator accepts exactly the concatenations of the units it admits.
  lemma AcceptsLanguage(s: seq<byte>)
    ensures Accepts(s) <==> InLanguage(s, IsUnit)
  {
    if Accepts(s) {
      var parts := Units(s);
      assert Flatten(parts) == s && forall u :: u in parts ==> IsUnit(u);
    }
    if InLanguage(s, IsUnit) {
      var parts :| Flatten(parts) == s && forall u :: u in parts ==> IsUnit(u);
      ScanUnits(parts);
    }
  }

  lemma RfcCharIsUnit(u: seq<byte>)
    ensures IsRfcChar(u) <==> IsUnit(u) && !IsRelaxed(u)
  {
  }

  // Exactly when an accepted string is in the language of the RFC.
  lemma RfcLanguage(s: seq<byte>)
    ensures InLanguage(s, IsRfcChar) <==> Accepts(s) && forall u :: u in Units(s) ==> !IsRelaxed(u)
  {
    forall u ensures IsRfcChar(u) <==> IsUnit(u) && !IsRelaxed(u) {
      RfcCharIsUnit(u);
    }
    if InLanguage(s, IsRfcChar) {
      var parts :| Flatten(parts) == s && forall u :: u in parts ==> IsRfcChar(u);
      ScanUnits(parts);
    }
    if Accepts(s) && forall u :: u in Units(s) ==> !IsRelaxed(u) {
      var parts := Units(s);
      assert Flatten(parts) == s && forall u :: u in parts ==> IsRfcChar(u);
    }
  }

  // Closure under concatenation, and its converse for a legal prefix.
  lemma {:induction false} ConcatenationScan(a: seq<byte>, b: seq<byte>, checkDot: bool)
    requires Accepts(a)
    ensures Scan(a + b, 0, true, checkDot) == Scan(b, 0, true, checkDot).WithDot(Scan(a, 0, true, checkDot).hasDot)
    decreases |a|
  {
    if a == [] {
      assert a + b == b;
    } else {
      var n := Trailing(a[0]) + 1;
      var u, t := a[..n], a[n..];
      AcceptedHead(a);
      assert a + b == u + (t + b);
      ConcatenationScan(t, b, checkDot);
      ScanUnit(u, t, checkDot);
      ScanUnit(u, t + b, checkDot);
    }
  }

  lemma ConcatenationAccepted(a: seq<byte>, b: seq<byte>)
    requires Accepts(a)
    ensures Accepts(a + b) <==> Accepts(b)
  {
    ConcatenationScan(a, b, false);
  }

  predicate HidesDot(u: seq<byte>) {
    |u| >= 2 && u[0] == 0xF4 && u[1] == DOT
  }

  predicate StartsWithDot(u: seq<byte>) {
    u != [] && u[0] == DOT
  }

  // The dot check looks at unit starts only, and only a unit F4 2E has a dot anywhere else.
  lemma {:induction false} DotsInUnits(s: seq<byte>)
    requires Accepts(s)
    ensures Scan(s, 0, true, true).hasDot <==> exists u :: u in Units(s) && StartsWithDot(u)
    ensures DOT in s <==> exists u :: u in Units(s) && (StartsWithDot(u) || HidesDot(u))
    decreases |s|
  {
    if s != [] {
      var n := Trailing(s[0]) + 1;
      var u, t := s[..n], s[n..];
      AcceptedHead(s);
      assert Units(s) == [u] + Units(t);
      DotsInUnits(t);
      ScanUnit(u, t, true);
      assert DOT in s <==> DOT in u || DOT in t;
      DotInUnit(u);
      assert forall v :: v in Units(s) <==> v == u || v in Units(t);
    }
  }

  lemma DotInUnit(u: seq<byte>)
    requires IsUnit(u)
    ensures DOT in u <==> StartsWithDot(u) || HidesDot(u)
  {
  }

  // The dot flag of an accepted name is right exactly when some unit starts with a dot or none hides one.
  lemma DotFlag(s: seq<byte>)
    requires Accepts(s)
    ensures (Scan(s, 0, true, true).hasDot <==> DOT in s) <==>
              (exists u :: u in Units(s) && StartsWithDot(u)) || (forall u :: u in Units(s) ==> !HidesDot(u))
  {
    DotsInUnits(s);
  }

  lemma RfcDotFlag(s: seq<byte>)
    requires InLanguage(s, IsRfcChar)
    ensures Scan(s, 0, true, true).hasDot <==> DOT in s
  {
    RfcLanguage(s);
    forall u | u in Units(s) ensures !HidesDot(u) {
      assert !IsRelaxed(u);
    }
    DotFlag(s);
  }

  // Three strings that show the gap: a surrogate, F4 00, and a hidden dot.
  lemma RelaxedExamples()
    ensures Accepts([0xED, 0xA0, 0x80]) && !InLanguage([0xED, 0xA0, 0x80], IsRfcChar)
    ensures Accepts([0xF4, 0x00, 0x80, 0x80]) && !InLanguage([0xF4, 0x00, 0x80, 0x80], IsRfcChar)
    ensures Accepts([0xF4, DOT, 0x80, 0x80]) && !Scan([0xF4, DOT, 0x80, 0x80], 0, true, true).hasDot
  {
    RelaxedSingleton([0xED, 0xA0, 0x80]);
    RelaxedSingleton([0xF4, 0x00, 0x80, 0x80]);
    RelaxedSingleton([0xF4, DOT, 0x80, 0x80]);
  }

  lemma RelaxedSingleton(u: seq<byte>)
    requires IsUnit(u) && IsRelaxed(u)
    ensures Accepts(u) && !InLanguage(u, IsRfcChar)
    ensures !Scan(u, 0, true, true).hasDot
  {
    assert u == u + [] && [u][1..] == [];
    ScanUnit(u, [], false);
    ScanUnit(u, [], true);
    assert Flatten([u]) == u;
    ScanUnits([u]);
    assert u in Units(u);
    RfcLanguage(u);
  }
}
