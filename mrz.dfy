/** The machine readable zone of the identity card: its fields, the
    constructor that validates the card number, and `toString`, which lays
    the fields out as three lines of 30 characters with check digits. */
module Mrz {
  import opened Errors
  import opened Strings
  import opened Checksum
  import opened Fields
  import opened Dates

  const DocumentCode: string := "ID"
  const IssuingState: string := "D"
  const Nationality: string := "D"

  /** The sample holder's name, fixed in the third line. */
  const Surname: string := "MUSTERMANN"
  const GivenNames: string := "ERIKA"

  datatype MachineReadableZone = MachineReadableZone(
    documentCode: string,
    issuingState: string,
    documentId: DocumentId,
    birthDate: DateYYMMDD,
    expiryDate: DateYYMMDD,
    nationality: string,
    versionNumber: DateYYMM)

  /** The `MachineReadableZone` constructor. The authority id is validated
      before the assigned number, so its error wins; the dates are not
      validated. The version number is the issuing date as YYMM. */
  function NewMachineReadableZone(authorityId: string, assignedNumber: string,
                                  birthDate: CalendarDate, expiryDate: CalendarDate,
                                  issuingDate: CalendarDate): (r: Result<MachineReadableZone>)
    ensures r.Ok? <==> IsAuthorityId(authorityId) && IsAssignedNumber(assignedNumber)
    ensures r.Err? && !IsAuthorityId(authorityId) ==> r.error == NewAuthorityId(authorityId).error
    ensures r.Err? && IsAuthorityId(authorityId) ==> r.error == NewAssignedNumber(assignedNumber).error
    ensures r.Ok? ==> r.value.documentCode == DocumentCode && r.value.issuingState == IssuingState &&
                      r.value.nationality == Nationality
    ensures r.Ok? ==> r.value.documentId.authorityId == authorityId &&
                      r.value.documentId.assignedNumber == assignedNumber &&
                      r.value.birthDate == NewDateYYMMDD(birthDate) &&
                      r.value.expiryDate == NewDateYYMMDD(expiryDate) &&
                      r.value.versionNumber == NewDateYYMM(issuingDate)
  {
    match NewAuthorityId(authorityId)
    case Err(e) => Err(e)
    case Ok(a) =>
      match NewAssignedNumber(assignedNumber)
      case Err(e) => Err(e)
      case Ok(n) =>
        Ok(MachineReadableZone(DocumentCode, IssuingState, DocumentId(a, n),
                               NewDateYYMMDD(birthDate), NewDateYYMMDD(expiryDate),
                               Nationality, NewDateYYMM(issuingDate)))
  }

  /** Line 1: document code, issuing state, two fillers, the document
      number and its check digit, fifteen fillers. */
  function Line1(z: MachineReadableZone, documentCheckDigit: nat): string
  {
    z.documentCode + z.issuingState + Repeat(Filler, 2) + DocumentIdString(z.documentId)
      + NatToString(documentCheckDigit) + Repeat(Filler, 15)
  }

  /** Line 2: birth date and check digit, a filler, expiry date and check
      digit, nationality, two fillers, version number, seven fillers and
      the composite check digit. */
  function Line2(z: MachineReadableZone, birthCheckDigit: nat, expiryCheckDigit: nat,
                 compositeCheckDigit: nat): string
  {
    YYMMDDString(z.birthDate) + NatToString(birthCheckDigit) + Repeat(Filler, 1)
      + YYMMDDString(z.expiryDate) + NatToString(expiryCheckDigit) + z.nationality + Repeat(Filler, 2)
      + YYMMString(z.versionNumber) + Repeat(Filler, 7) + NatToString(compositeCheckDigit)
  }

  /** Line 3: the fixed sample name. */
  function Line3(): string
  {
    Surname + Repeat(Filler, 2) + GivenNames + Repeat(Filler, 13)
  }

  /** What the composite check digit covers: document number, birth date,
      expiry date, each with its check digit, then the version number. */
  function CompositeString(z: MachineReadableZone, documentCheckDigit: nat,
                           birthCheckDigit: nat, expiryCheckDigit: nat): string
  {
    (DocumentIdString(z.documentId) + NatToString(documentCheckDigit))
      + (YYMMDDString(z.birthDate) + NatToString(birthCheckDigit))
      + (YYMMDDString(z.expiryDate) + NatToString(expiryCheckDigit))
      + YYMMString(z.versionNumber)
  }

  /** `toString` as a function: the check digits in the order the source
      computes them, the first one that throws deciding the error. */
  function Render(z: MachineReadableZone): Result<string>
  {
    match CheckDigitOf(DocumentIdString(z.documentId))
    case Err(e) => Err(e)
    case Ok(document) =>
      match CheckDigitOf(YYMMDDString(z.birthDate))
      case Err(e) => Err(e)
      case Ok(birth) =>
        match CheckDigitOf(YYMMDDString(z.expiryDate))
        case Err(e) => Err(e)
        case Ok(expiry) =>
          match CheckDigitOf(CompositeString(z, document, birth, expiry))
          case Err(e) => Err(e)
          case Ok(composite) =>
            Ok(Line1(z, document) + "\n" + Line2(z, birth, expiry, composite) + "\n" + Line3())
  }

  /** `MachineReadableZone.toString`: each line built by appending its
      fields in order; a check digit that throws ends the method. */
  method ToString(z: MachineReadableZone) returns (r: Result<string>)
    ensures r == Render(z)
  {
    var line1: string := z.documentCode + z.issuingState;
    line1 := line1 + Repeat(Filler, 2);
    line1 := line1 + DocumentIdString(z.documentId);
    var document := DocumentCheckDigit(z.documentId);
    line1 := line1 + NatToString(document);
    line1 := line1 + Repeat(Filler, 15);
    assert line1 == Line1(z, document);

    var birth := DateCheckDigit(z.birthDate);
    if birth.Err? {
      return Err(birth.error);
    }
    var line2: string := YYMMDDString(z.birthDate) + NatToString(birth.value);
    line2 := line2 + Repeat(Filler, 1);
    var expiry := DateCheckDigit(z.expiryDate);
    if expiry.Err? {
      return Err(expiry.error);
    }
    line2 := line2 + YYMMDDString(z.expiryDate) + NatToString(expiry.value);
    line2 := line2 + z.nationality;
    line2 := line2 + Repeat(Filler, 2);
    line2 := line2 + YYMMString(z.versionNumber);
    line2 := line2 + Repeat(Filler, 7);
    var composite := CheckDigit((DocumentIdString(z.documentId) + NatToString(document))
                                + (YYMMDDString(z.birthDate) + NatToString(birth.value))
                                + (YYMMDDString(z.expiryDate) + NatToString(expiry.value))
                                + YYMMString(z.versionNumber));
    if composite.Err? {
      return Err(composite.error);
    }
    line2 := line2 + NatToString(composite.value);
    assert line2 == Line2(z, birth.value, expiry.value, composite.value);

    var line3: string := Surname;
    line3 := line3 + Repeat(Filler, 2);
    line3 := line3 + GivenNames;
    line3 := line3 + Repeat(Filler, 13);
    assert line3 == Line3();
    r := Ok(line1 + "\n" + line2 + "\n" + line3);
  }

  // Reading the zone back

  predicate NoNewline(s: string)
  {
    forall i :: 0 <= i < |s| ==> s[i] != '\n'
  }

  lemma NoNewlineConcat(a: string, b: string)
    requires NoNewline(a) && NoNewline(b)
    ensures NoNewline(a + b)
  {
    forall i | 0 <= i < |a + b| ensures (a + b)[i] != '\n' {
      if i < |a| { assert (a + b)[i] == a[i]; } else { assert (a + b)[i] == b[i - |a|]; }
    }
  }

  /** `s.split("\n")`. */
  function SplitLines(s: string): (lines: seq<string>)
    ensures |lines| >= 1
  {
    if s == [] then [[]]
    else
      var rest := SplitLines(s[1..]);
      if s[0] == '\n' then [[]] + rest else [[s[0]] + rest[0]] + rest[1..]
  }

  /** A line without a newline splits into itself. */
  lemma {:induction false} SplitSingleLine(a: string)
    requires NoNewline(a)
    ensures SplitLines(a) == [a]
  {
    if a != [] {
      SplitSingleLine(a[1..]);
      assert [a[0]] + a[1..] == a;
    }
  }

  /** Splitting undoes joining with a newline. */
  lemma {:induction false} SplitJoin(a: string, b: string)
    requires NoNewline(a)
    ensures SplitLines(a + "\n" + b) == [a] + SplitLines(b)
  {
    var s := a + "\n" + b;
    if a == [] {
      assert s[0] == '\n' && s[1..] == b;
    } else {
      assert s[0] == a[0];
      assert s[1..] == a[1..] + "\n" + b;
      SplitJoin(a[1..], b);
      assert [a[0]] + a[1..] == a;
    }
  }

  /** Three newline-free lines joined with newlines split back into them. */
  lemma SplitThreeLines(l1: string, l2: string, l3: string)
    requires NoNewline(l1) && NoNewline(l2) && NoNewline(l3)
    ensures SplitLines(l1 + "\n" + l2 + "\n" + l3) == [l1, l2, l3]
  {
    assert l1 + "\n" + l2 + "\n" + l3 == l1 + "\n" + (l2 + "\n" + l3);
    SplitJoin(l1, l2 + "\n" + l3);
    SplitJoin(l2, l3);
    SplitSingleLine(l3);
  }

  /** The check digit character `c` is the check digit of `s`. */
  predicate CheckDigitMatches(s: string, c: char)
  {
    IsDecimal(c) && CheckDigitOf(s) == Ok(DigitOf(c))
  }

  /** The same, with the check digit of ICAO Doc 9303 Part 3, section 4.9. */
  predicate IcaoCheckDigitMatches(s: string, c: char)
  {
    IcaoReadable(s) && IsDecimal(c) && IcaoWeightedSum(s) % 10 == DigitOf(c)
  }

  /** A reader's view of lines 1 and 2: the check digits at their fixed
      positions match the fields they protect. */
  predicate ChecksOut(line1: string, line2: string)
    requires |line1| == 30 && |line2| == 30
  {
    CheckDigitMatches(line1[5..14], line1[14]) &&
    CheckDigitMatches(line2[0..6], line2[6]) &&
    CheckDigitMatches(line2[8..14], line2[14]) &&
    CheckDigitMatches(line1[5..15] + line2[0..7] + line2[8..15] + line2[18..22], line2[29])
  }

  /** The same, read with the ICAO check digit at the positions of the TD1
      layout of ICAO Doc 9303 Part 5: the composite covers the upper line
      from column 6 and the middle line's columns 1-7, 9-15 and 19-29,
      fillers included. */
  predicate IcaoChecksOut(line1: string, line2: string)
    requires |line1| == 30 && |line2| == 30
  {
    IcaoCheckDigitMatches(line1[5..14], line1[14]) &&
    IcaoCheckDigitMatches(line2[0..6], line2[6]) &&
    IcaoCheckDigitMatches(line2[8..14], line2[14]) &&
    IcaoCheckDigitMatches(line1[5..] + line2[0..7] + line2[8..15] + line2[18..29], line2[29])
  }

  // Properties of the rendered zone

  /** The constant fields are those the constructor sets and the dates are
      YYMMDD and YYMM in decimal digits. */
  predicate WellFormed(z: MachineReadableZone)
  {
    z.documentCode == DocumentCode && z.issuingState == IssuingState && z.nationality == Nationality &&
    |YYMMDDString(z.birthDate)| == 6 && AllDecimal(YYMMDDString(z.birthDate)) &&
    |YYMMDDString(z.expiryDate)| == 6 && AllDecimal(YYMMDDString(z.expiryDate)) &&
    |YYMMString(z.versionNumber)| == 4 && AllDecimal(YYMMString(z.versionNumber))
  }

  /** Valid card number fields and dates whose years have at least two
      digits give a well-formed zone. */
  lemma NewZoneWellFormed(authorityId: string, assignedNumber: string,
                          birthDate: CalendarDate, expiryDate: CalendarDate, issuingDate: CalendarDate)
    requires IsAuthorityId(authorityId) && IsAssignedNumber(assignedNumber)
    requires IsCalendarDate(birthDate) && HasTwoDigitYear(birthDate)
    requires IsCalendarDate(expiryDate) && HasTwoDigitYear(expiryDate)
    requires IsCalendarDate(issuingDate) && HasTwoDigitYear(issuingDate)
    ensures NewMachineReadableZone(authorityId, assignedNumber, birthDate, expiryDate, issuingDate).Ok?
    ensures WellFormed(NewMachineReadableZone(authorityId, assignedNumber, birthDate, expiryDate, issuingDate).value)
  {
    YYMMDDShape(birthDate);
    YYMMDDShape(expiryDate);
    YYMMShape(issuingDate);
  }

  /** A one-digit check digit is written as one decimal character. */
  lemma SingleDigit(d: nat)
    requires d < 10
    ensures NatToString(d) == [DigitChar(d)]
    ensures AllDecimal(NatToString(d)) && Checkable(NatToString(d))
  {
  }

  /** Line 1 of a well-formed zone, position by position. */
  lemma Line1Layout(z: MachineReadableZone, document: nat)
    requires WellFormed(z) && document < 10
    ensures var l := Line1(z, document);
      |l| == 30 && NoNewline(l) &&
      l[..5] == "IDD<<" &&
      l[5..9] == z.documentId.authorityId && l[9..14] == z.documentId.assignedNumber &&
      l[5..14] == DocumentIdString(z.documentId) && l[14] == DigitChar(document) &&
      l[5..15] == DocumentIdString(z.documentId) + NatToString(document) &&
      l[15..] == Repeat(Filler, 15)
  {
    var doc := DocumentIdString(z.documentId);
    SingleDigit(document);
    assert Repeat(Filler, 2) == "<<";
    var head := z.documentCode + z.issuingState + Repeat(Filler, 2);
    assert head == "IDD<<";
    var l := Line1(z, document);
    assert l == head + (doc + NatToString(document)) + Repeat(Filler, 15);
    assert l[5..15] == doc + NatToString(document);
    assert l[5..14] == doc;
    Line1NoNewline(z, document);
  }

  /** Line 1 has no newline, so it comes back whole when the zone is split. */
  lemma Line1NoNewline(z: MachineReadableZone, document: nat)
    requires WellFormed(z) && document < 10
    ensures NoNewline(Line1(z, document))
  {
    var doc := DocumentIdString(z.documentId);
    var head := z.documentCode + z.issuingState + Repeat(Filler, 2);
    assert head == "IDD<<";
    assert NoNewline(doc) by {
      forall i | 0 <= i < |doc| ensures doc[i] != '\n' {
        assert IsDigitChar(doc[i]);
      }
    }
    NoNewlineConcat(head, doc);
    NoNewlineConcat(head + doc, NatToString(document));
    NoNewlineConcat(head + doc + NatToString(document), Repeat(Filler, 15));
  }

  /** Line 2 regrouped into the fields a reader cuts out of it. */
  lemma Line2Pieces(z: MachineReadableZone, birth: nat, expiry: nat, composite: nat)
    requires z.nationality == Nationality
    ensures Line2(z, birth, expiry, composite) ==
              (YYMMDDString(z.birthDate) + NatToString(birth)) + "<"
              + (YYMMDDString(z.expiryDate) + NatToString(expiry)) + "D<<"
              + YYMMString(z.versionNumber) + Repeat(Filler, 7) + NatToString(composite)
  {
    assert Repeat(Filler, 1) == "<";
    assert Repeat(Filler, 2) == "<<";
  }

  /** Where seven pieces of the given lengths end up in line 2. */
  lemma Line2Slices(b: string, e: string, v: string, f: string, c: string)
    requires |b| == 7 && |e| == 7 && |v| == 4 && |f| == 7 && |c| == 1
    ensures var l := b + "<" + e + "D<<" + v + f + c;
      |l| == 30 && l[0..7] == b && l[7] == Filler && l[8..15] == e && l[15..18] == "D<<" &&
      l[18..22] == v && l[22..29] == f && l[29] == c[0]
  {
    var l := b + "<" + e + "D<<" + v + f + c;
    assert l[0..7] == b;
    assert l[8..15] == e;
    assert l[15..18] == "D<<";
    assert l[18..22] == v;
    assert l[22..29] == f;
  }

  /** Line 2 of a well-formed zone holds no newline. */
  lemma Line2NoNewline(b: string, e: string, v: string, f: string, c: string)
    requires NoNewline(b) && NoNewline(e) && NoNewline(v) && NoNewline(f) && NoNewline(c)
    ensures NoNewline(b + "<" + e + "D<<" + v + f + c)
  {
    NoNewlineConcat(b, "<");
    NoNewlineConcat(b + "<", e);
    NoNewlineConcat(b + "<" + e, "D<<");
    NoNewlineConcat(b + "<" + e + "D<<", v);
    NoNewlineConcat(b + "<" + e + "D<<" + v, f);
    NoNewlineConcat(b + "<" + e + "D<<" + v + f, c);
  }

  /** Line 2 of a well-formed zone, position by position. */
  lemma Line2Layout(z: MachineReadableZone, birth: nat, expiry: nat, composite: nat)
    requires WellFormed(z) && birth < 10 && expiry < 10 && composite < 10
    ensures var l := Line2(z, birth, expiry, composite);
      |l| == 30 && NoNewline(l) &&
      l[0..6] == YYMMDDString(z.birthDate) && l[6] == DigitChar(birth) &&
      l[0..7] == YYMMDDString(z.birthDate) + NatToString(birth) &&
      l[7] == Filler &&
      l[8..14] == YYMMDDString(z.expiryDate) && l[14] == DigitChar(expiry) &&
      l[8..15] == YYMMDDString(z.expiryDate) + NatToString(expiry) &&
      l[15..18] == "D<<" &&
      l[18..22] == YYMMString(z.versionNumber) &&
      l[22..29] == Repeat(Filler, 7) &&
      l[29] == DigitChar(composite)
  {
    SingleDigit(birth);
    SingleDigit(expiry);
    SingleDigit(composite);
    var b := YYMMDDString(z.birthDate) + NatToString(birth);
    var e := YYMMDDString(z.expiryDate) + NatToString(expiry);
    var v := YYMMString(z.versionNumber);
    Line2Pieces(z, birth, expiry, composite);
    Line2Slices(b, e, v, Repeat(Filler, 7), NatToString(composite));
    NoNewlineConcat(YYMMDDString(z.birthDate), NatToString(birth));
    NoNewlineConcat(YYMMDDString(z.expiryDate), NatToString(expiry));
    Line2NoNewline(b, e, v, Repeat(Filler, 7), NatToString(composite));
    assert b[0..6] == YYMMDDString(z.birthDate);
    assert e[0..6] == YYMMDDString(z.expiryDate);
  }

  /** The length of line 2 for any zone: 14 characters besides the dates,
      so a date part shorter than YYMMDD or YYMM (a one-digit year) makes
      the line shorter than 30. */
  lemma Line2Length(z: MachineReadableZone, birth: nat, expiry: nat, composite: nat)
    requires z.nationality == Nationality && birth < 10 && expiry < 10 && composite < 10
    ensures |Line2(z, birth, expiry, composite)| ==
              |YYMMDDString(z.birthDate)| + |YYMMDDString(z.expiryDate)| + |YYMMString(z.versionNumber)| + 14
  {
    SingleDigit(birth);
    SingleDigit(expiry);
    SingleDigit(composite);
  }

  /** Line 3 is the fixed sample name padded to 30 characters. */
  lemma Line3Layout()
    ensures Line3() == "MUSTERMANN<<ERIKA<<<<<<<<<<<<<"
    ensures |Line3()| == 30 && NoNewline(Line3())
  {
    assert Repeat(Filler, 2) == "<<";
    assert Repeat(Filler, 13) == "<<<<<<<<<<<<<";
  }

  /** The document number and both dates of a well-formed zone have check digits. */
  lemma FieldCheckDigits(z: MachineReadableZone)
    requires WellFormed(z)
    ensures CheckDigitOf(DocumentIdString(z.documentId)).Ok?
    ensures CheckDigitOf(YYMMDDString(z.birthDate)).Ok?
    ensures CheckDigitOf(YYMMDDString(z.expiryDate)).Ok?
  {
    DecimalAreCheckable(YYMMDDString(z.birthDate));
    DecimalAreCheckable(YYMMDDString(z.expiryDate));
    CheckableHasCheckDigit(DocumentIdString(z.documentId));
    CheckableHasCheckDigit(YYMMDDString(z.birthDate));
    CheckableHasCheckDigit(YYMMDDString(z.expiryDate));
  }

  /** The composite string of a well-formed zone is checkable. */
  lemma CompositeCheckable(z: MachineReadableZone, document: nat, birth: nat, expiry: nat)
    requires WellFormed(z) && document < 10 && birth < 10 && expiry < 10
    ensures Checkable(CompositeString(z, document, birth, expiry))
  {
    var doc := DocumentIdString(z.documentId);
    var b := YYMMDDString(z.birthDate);
    var e := YYMMDDString(z.expiryDate);
    var v := YYMMString(z.versionNumber);
    DecimalAreCheckable(b);
    DecimalAreCheckable(e);
    DecimalAreCheckable(v);
    SingleDigit(document);
    SingleDigit(birth);
    SingleDigit(expiry);
    CheckableConcat(doc, NatToString(document));
    CheckableConcat(b, NatToString(birth));
    CheckableConcat(e, NatToString(expiry));
    CheckableConcat(doc + NatToString(document), b + NatToString(birth));
    CheckableConcat((doc + NatToString(document)) + (b + NatToString(birth)), e + NatToString(expiry));
    CheckableConcat((doc + NatToString(document)) + (b + NatToString(birth)) + (e + NatToString(expiry)), v);
  }

  /** `toString` of a well-formed zone succeeds, with the four check
      digits it computes. */
  lemma RenderWellFormed(z: MachineReadableZone) returns (document: nat, birth: nat, expiry: nat, composite: nat)
    requires WellFormed(z)
    ensures document < 10 && birth < 10 && expiry < 10 && composite < 10
    ensures CheckDigitOf(DocumentIdString(z.documentId)) == Ok(document)
    ensures CheckDigitOf(YYMMDDString(z.birthDate)) == Ok(birth)
    ensures CheckDigitOf(YYMMDDString(z.expiryDate)) == Ok(expiry)
    ensures Checkable(CompositeString(z, document, birth, expiry))
    ensures CheckDigitOf(CompositeString(z, document, birth, expiry)) == Ok(composite)
    ensures Render(z) == Ok(Line1(z, document) + "\n" + Line2(z, birth, expiry, composite) + "\n" + Line3())
  {
    FieldCheckDigits(z);
    document := CheckDigitOf(DocumentIdString(z.documentId)).value;
    birth := CheckDigitOf(YYMMDDString(z.birthDate)).value;
    expiry := CheckDigitOf(YYMMDDString(z.expiryDate)).value;
    CompositeCheckable(z, document, birth, expiry);
    CheckableHasCheckDigit(CompositeString(z, document, birth, expiry));
    composite := CheckDigitOf(CompositeString(z, document, birth, expiry)).value;
  }

  /** The check digits of lines 1 and 2, read at their fixed positions,
      match the fields they protect. */
  lemma LinesCheckOut(z: MachineReadableZone, document: nat, birth: nat, expiry: nat, composite: nat)
    requires WellFormed(z) && document < 10 && birth < 10 && expiry < 10 && composite < 10
    requires CheckDigitOf(DocumentIdString(z.documentId)) == Ok(document)
    requires CheckDigitOf(YYMMDDString(z.birthDate)) == Ok(birth)
    requires CheckDigitOf(YYMMDDString(z.expiryDate)) == Ok(expiry)
    requires CheckDigitOf(CompositeString(z, document, birth, expiry)) == Ok(composite)
    ensures |Line1(z, document)| == 30 && |Line2(z, birth, expiry, composite)| == 30
    ensures ChecksOut(Line1(z, document), Line2(z, birth, expiry, composite))
    ensures IcaoChecksOut(Line1(z, document), Line2(z, birth, expiry, composite))
  {
    var l1 := Line1(z, document);
    var l2 := Line2(z, birth, expiry, composite);
    Line1Layout(z, document);
    Line2Layout(z, birth, expiry, composite);
    var c := CompositeString(z, document, birth, expiry);
    assert l1[5..15] + l2[0..7] + l2[8..15] + l2[18..22] == c;
    CompositeCheckable(z, document, birth, expiry);
    ReaderAccepts(DocumentIdString(z.documentId), document);
    DecimalAreCheckable(YYMMDDString(z.birthDate));
    ReaderAccepts(YYMMDDString(z.birthDate), birth);
    DecimalAreCheckable(YYMMDDString(z.expiryDate));
    ReaderAccepts(YYMMDDString(z.expiryDate), expiry);
    ReaderAccepts(c, composite);
    IcaoCompositeFillers(l1, l2, c);
  }

  /** The composite an ICAO reader takes holds the encoder's composite with
      a run of 15 fillers after the document number and 7 at the end;
      neither changes ICAO's sum. */
  lemma IcaoCompositeFillers(l1: string, l2: string, c: string)
    requires |l1| == 30 && |l2| == 30
    requires l1[15..] == Repeat(Filler, 15) && l2[22..29] == Repeat(Filler, 7)
    requires c == l1[5..15] + l2[0..7] + l2[8..15] + l2[18..22] && Checkable(c)
    ensures IcaoReadable(l1[5..] + l2[0..7] + l2[8..15] + l2[18..29])
    ensures IcaoWeightedSum(l1[5..] + l2[0..7] + l2[8..15] + l2[18..29]) == IcaoWeightedSum(c)
  {
    var d, r := l1[5..15], l2[0..7] + l2[8..15] + l2[18..22];
    assert c == d + r;
    forall i | 0 <= i < |d| ensures IsDigitChar(d[i]) { assert d[i] == c[i]; }
    forall i | 0 <= i < |r| ensures IsDigitChar(r[i]) { assert r[i] == c[|d| + i]; }
    IcaoSkipsFillers(d, l1[15..], r);
    IcaoTrailingFillers(d + l1[15..] + r, l2[22..29]);
    assert l1[5..] == d + l1[15..];
    assert l2[18..29] == l2[18..22] + l2[22..29];
    assert l1[5..] + l2[0..7] + l2[8..15] + l2[18..29] == d + l1[15..] + r + l2[22..29];
  }

  /** `toString` of a well-formed zone splits back into its three lines. */
  lemma RenderSplits(z: MachineReadableZone) returns (document: nat, birth: nat, expiry: nat, composite: nat)
    requires WellFormed(z)
    ensures document < 10 && birth < 10 && expiry < 10 && composite < 10
    ensures CheckDigitOf(DocumentIdString(z.documentId)) == Ok(document)
    ensures CheckDigitOf(YYMMDDString(z.birthDate)) == Ok(birth)
    ensures CheckDigitOf(YYMMDDString(z.expiryDate)) == Ok(expiry)
    ensures CheckDigitOf(CompositeString(z, document, birth, expiry)) == Ok(composite)
    ensures Render(z).Ok?
    ensures SplitLines(Render(z).value) == [Line1(z, document), Line2(z, birth, expiry, composite), Line3()]
  {
    document, birth, expiry, composite := RenderWellFormed(z);
    Line1Layout(z, document);
    Line2Layout(z, birth, expiry, composite);
    Line3Layout();
    SplitThreeLines(Line1(z, document), Line2(z, birth, expiry, composite), Line3());
  }

  /** `toString` of a well-formed zone splits into three lines of 30
      characters whose check digits a reader accepts, both with this check
      digit and with the ICAO one. */
  lemma RenderedZoneChecksOut(z: MachineReadableZone)
    requires WellFormed(z)
    ensures Render(z).Ok?
    ensures var lines := SplitLines(Render(z).value);
      |lines| == 3 && |lines[0]| == 30 && |lines[1]| == 30 && |lines[2]| == 30 &&
      ChecksOut(lines[0], lines[1]) && IcaoChecksOut(lines[0], lines[1])
  {
    var document, birth, expiry, composite := RenderSplits(z);
    var lines := SplitLines(Render(z).value);
    var l1, l2 := Line1(z, document), Line2(z, birth, expiry, composite);
    assert lines[0] == l1 && lines[1] == l2 && lines[2] == Line3();
    LinesCheckOut(z, document, birth, expiry, composite);
    Line3Layout();
    assert ChecksOut(l1, l2) && IcaoChecksOut(l1, l2);
  }

  /** A check digit this encoder computed for a string without fillers
      matches under both check digit definitions. */
  lemma ReaderAccepts(s: string, d: nat)
    requires d < 10 && CheckDigitOf(s) == Ok(d)
    requires Checkable(s)
    ensures CheckDigitMatches(s, DigitChar(d)) && IcaoCheckDigitMatches(s, DigitChar(d))
  {
    IcaoAgreesWithoutFiller(s);
  }

  /** Where line 1 holds the fields of `z`. */
  predicate Line1Fields(l: string, z: MachineReadableZone)
  {
    |l| == 30 &&
    l[..5] == "IDD<<" &&
    l[5..9] == z.documentId.authorityId && l[9..14] == z.documentId.assignedNumber &&
    l[15..] == Repeat(Filler, 15)
  }

  /** Where line 2 holds the fields of `z`. */
  predicate Line2Fields(l: string, z: MachineReadableZone)
  {
    |l| == 30 &&
    l[0..6] == YYMMDDString(z.birthDate) && l[7] == Filler &&
    l[8..14] == YYMMDDString(z.expiryDate) && l[15..18] == "D<<" &&
    l[18..22] == YYMMString(z.versionNumber) && l[22..29] == Repeat(Filler, 7)
  }

  /** The fields can be read back from their fixed positions. */
  lemma RenderedFields(z: MachineReadableZone)
    requires WellFormed(z)
    ensures Render(z).Ok?
    ensures var lines := SplitLines(Render(z).value);
      |lines| == 3 && Line1Fields(lines[0], z) && Line2Fields(lines[1], z) &&
      lines[2] == "MUSTERMANN<<ERIKA<<<<<<<<<<<<<"
  {
    var document, birth, expiry, composite := RenderSplits(z);
    var lines := SplitLines(Render(z).value);
    var l1, l2 := Line1(z, document), Line2(z, birth, expiry, composite);
    assert lines[0] == l1 && lines[1] == l2 && lines[2] == Line3();
    Line1Layout(z, document);
    Line2Layout(z, birth, expiry, composite);
    Line3Layout();
    assert Line1Fields(l1, z) && Line2Fields(l2, z);
  }

  /** For valid card number fields and dates, `toString` throws exactly
      when one of the three years is -9..-1, on its minus sign. */
  lemma RenderFails(authorityId: string, assignedNumber: string,
                    birthDate: CalendarDate, expiryDate: CalendarDate, issuingDate: CalendarDate)
    requires IsAuthorityId(authorityId) && IsAssignedNumber(assignedNumber)
    requires IsCalendarDate(birthDate) && IsCalendarDate(expiryDate) && IsCalendarDate(issuingDate)
    ensures NewMachineReadableZone(authorityId, assignedNumber, birthDate, expiryDate, issuingDate).Ok?
    ensures var r := Render(NewMachineReadableZone(authorityId, assignedNumber, birthDate, expiryDate, issuingDate).value);
      (r.Err? <==> HasNegativeOneDigitYear(birthDate) || HasNegativeOneDigitYear(expiryDate) ||
                   HasNegativeOneDigitYear(issuingDate)) &&
      (r.Err? ==> r.error == InvalidCharacter(DigitField, "-"))
  {
    var z := NewMachineReadableZone(authorityId, assignedNumber, birthDate, expiryDate, issuingDate).value;
    var doc := DocumentIdString(z.documentId);
    CheckableHasCheckDigit(doc);
    DateCheckDigitFails(birthDate);
    DateCheckDigitFails(expiryDate);
    if !HasNegativeOneDigitYear(birthDate) && !HasNegativeOneDigitYear(expiryDate) {
      var document := CheckDigitOf(doc).value;
      var birth := CheckDigitOf(YYMMDDString(z.birthDate)).value;
      var expiry := CheckDigitOf(YYMMDDString(z.expiryDate)).value;
      var v := YYMMString(z.versionNumber);
      DecimalEncoding(birthDate);
      DecimalEncoding(expiryDate);
      CompositeFails(z, document, birth, expiry);
      if HasNegativeOneDigitYear(issuingDate) {
        NegativeYearEncoding(issuingDate);
        CheckDigitStopsAt(v, 0);
      } else {
        DecimalEncoding(issuingDate);
        DecimalAreCheckable(v);
        CheckDigitFails(v);
      }
    }
  }

  /** The composite check digit fails exactly when the version number's does. */
  lemma CompositeFails(z: MachineReadableZone, document: nat, birth: nat, expiry: nat)
    requires document < 10 && birth < 10 && expiry < 10
    requires AllDecimal(YYMMDDString(z.birthDate)) && AllDecimal(YYMMDDString(z.expiryDate))
    ensures var c := CheckDigitOf(CompositeString(z, document, birth, expiry));
      var v := CheckDigitOf(YYMMString(z.versionNumber));
      (c.Err? <==> v.Err?) && (c.Err? ==> c.error == v.error)
  {
    var doc := DocumentIdString(z.documentId);
    var b := YYMMDDString(z.birthDate);
    var e := YYMMDDString(z.expiryDate);
    DecimalAreCheckable(b);
    DecimalAreCheckable(e);
    SingleDigit(document);
    SingleDigit(birth);
    SingleDigit(expiry);
    CheckableConcat(doc, NatToString(document));
    CheckableConcat(b, NatToString(birth));
    CheckableConcat(e, NatToString(expiry));
    CheckableConcat(doc + NatToString(document), b + NatToString(birth));
    CheckableConcat((doc + NatToString(document)) + (b + NatToString(birth)), e + NatToString(expiry));
    CheckablePrefix((doc + NatToString(document)) + (b + NatToString(birth)) + (e + NatToString(expiry)),
                    YYMMString(z.versionNumber));
  }
}
