/** The two parts of the card number, `AuthorityID` (issuing authority
    code) and `AssignedNumber`, their validators and generators, and the
    `DocumentID` that joins them. */
module Fields {
  import opened Errors
  import opened Strings
  import opened Checksum

  /** The letters an authority id may begin with. */
  const AllowedFirstCharacters: string := "LMNPRTVWXY"

  /** The 27 characters both fields may use: the digits and the letters
      that cannot be mistaken for one another. */
  const AllowedCharacters: string := "0123456789CFGHJKLMNPRTVWXYZ"

  /** The ten real authority codes `AuthorityID.generate` picks from. */
  const KnownAuthorityIds: seq<string> :=
    ["L01X", "L2CJ", "L353", "L6Z8", "L72G", "L73Y", "L79V", "L7TH", "L88N", "L933"]

  /** The test `new RegExp("^[" + allowed + "]*$").test(s)`: every character is allowed. */
  predicate MatchesAllowed(s: string)
  {
    forall i :: 0 <= i < |s| ==> s[i] in AllowedCharacters
  }

  predicate IsAuthorityId(s: string)
  {
    |s| == 4 && s[0] in AllowedFirstCharacters && MatchesAllowed(s)
  }

  predicate IsAssignedNumber(s: string)
  {
    |s| == 5 && MatchesAllowed(s)
  }

  /** A string that the `AuthorityID` constructor accepted. */
  type AuthorityId = s: string | IsAuthorityId(s) witness "L01X"

  /** A string that the `AssignedNumber` constructor accepted. */
  type AssignedNumber = s: string | IsAssignedNumber(s) witness "00000"

  /** The allowed characters are single UTF-16 code units. */
  lemma AllowedAreBmp(s: string)
    requires MatchesAllowed(s)
    ensures forall i :: 0 <= i < |s| ==> IsBmp(s[i])
  {
    AllowedAreDigits(s);
    forall i | 0 <= i < |s| ensures IsBmp(s[i]) {
      assert s[i] as int <= 'Z' as int;
    }
  }

  /** So a string that passes the alphabet test has as many code units as
      characters. */
  lemma AllowedLength(s: string)
    ensures MatchesAllowed(s) ==> Utf16Length(s) == |s|
  {
    if MatchesAllowed(s) {
      AllowedAreBmp(s);
      Utf16LengthOfBmp(s);
    }
  }

  /** The `AuthorityID` constructor: the length (in UTF-16 code units, as
      `length` counts) is checked first, then the first character, then the
      whole alphabet, and the first failing check decides the error. A first
      character outside the Basic Multilingual Plane is refused either way:
      `charAt(0)` gives its leading surrogate, which is not an allowed letter. */
  function NewAuthorityId(s: string): (r: Result<AuthorityId>)
    ensures r.Ok? <==> IsAuthorityId(s)
    ensures r.Ok? ==> r.value == s
    ensures r.Err? ==> (r.error == InvalidLength(AuthorityIdField) <==> Utf16Length(s) != 4)
    ensures r.Err? ==> (r.error == InvalidFirstCharacter <==> Utf16Length(s) == 4 && s[0] !in AllowedFirstCharacters)
    ensures r.Err? ==> (r.error == InvalidCharacter(AuthorityIdField, s) <==>
                          Utf16Length(s) == 4 && s[0] in AllowedFirstCharacters && !MatchesAllowed(s))
  {
    AllowedLength(s);
    if Utf16Length(s) != 4 then Err(InvalidLength(AuthorityIdField))
    else if s[0] !in AllowedFirstCharacters then Err(InvalidFirstCharacter)
    else if !MatchesAllowed(s) then Err(InvalidCharacter(AuthorityIdField, s))
    else Ok(s)
  }

  /** The `AssignedNumber` constructor: the length, in UTF-16 code units, is
      checked before the alphabet. */
  function NewAssignedNumber(s: string): (r: Result<AssignedNumber>)
    ensures r.Ok? <==> IsAssignedNumber(s)
    ensures r.Ok? ==> r.value == s
    ensures r.Err? ==> (r.error == InvalidLength(AssignedNumberField) <==> Utf16Length(s) != 5)
    ensures r.Err? ==> (r.error == InvalidCharacter(AssignedNumberField, s) <==>
                          Utf16Length(s) == 5 && !MatchesAllowed(s))
  {
    AllowedLength(s);
    if Utf16Length(s) != 5 then Err(InvalidLength(AssignedNumberField))
    else if !MatchesAllowed(s) then Err(InvalidCharacter(AssignedNumberField, s))
    else Ok(s)
  }

  /** A character outside the Basic Multilingual Plane counts twice towards
      the length: three characters can make a four-unit authority id, which
      then fails the alphabet test, and five can be too long for an
      assigned number. */
  lemma LengthCountsCodeUnits()
    ensures NewAuthorityId("L0\U{1F600}") == Err(InvalidCharacter(AuthorityIdField, "L0\U{1F600}"))
    ensures NewAuthorityId("\U{1F600}01X") == Err(InvalidLength(AuthorityIdField))
    ensures NewAssignedNumber("1234\U{1F600}") == Err(InvalidLength(AssignedNumberField))
  {
    assert Utf16Length("L0\U{1F600}") == 4;
    assert Utf16Length("\U{1F600}01X") == 5;
    assert Utf16Length("1234\U{1F600}") == 6;
  }

  /** 'Z' may appear in an authority id but cannot start one: any string of
      length 4 beginning with 'Z' gets the first-character error. */
  lemma AuthorityIdStartingWithZ(s: string)
    requires Utf16Length(s) == 4 && s[0] == 'Z'
    ensures 'Z' in AllowedCharacters
    ensures NewAuthorityId(s) == Err(InvalidFirstCharacter)
  {
    assert AllowedCharacters[26] == 'Z';
  }

  /** No lower-case letter and no filler is allowed in either field, so
      such a character always makes the assigned number invalid. */
  lemma AssignedNumberRejectsLowerCase(s: string, i: nat)
    requires i < |s| && ('a' <= s[i] <= 'z' || s[i] == Filler)
    ensures NewAssignedNumber(s).Err?
  {
    assert s[i] !in AllowedCharacters;
    assert !MatchesAllowed(s);
  }

  /** The allowed characters are `Digit` characters, so every authority id
      and every assigned number only holds characters the check digit accepts. */
  lemma AllowedAreDigits(s: string)
    requires MatchesAllowed(s)
    ensures forall i :: 0 <= i < |s| ==> IsDigitChar(s[i]) && s[i] != Filler
  {
  }

  /** The allowed first characters are allowed characters too. */
  lemma FirstCharactersAllowed(c: char)
    requires c in AllowedFirstCharacters
    ensures c in AllowedCharacters
  {
  }

  /** `AuthorityID.generate` with its random draw `Math.floor(Math.random() * 10)`
      made a parameter: one of the ten known authority codes. */
  function GenerateAuthorityId(draw: nat): (id: string)
    requires draw < |KnownAuthorityIds|
    ensures id in KnownAuthorityIds
    ensures NewAuthorityId(id) == Ok(id)
  {
    KnownAuthorityIdValid(draw);
    KnownAuthorityIds[draw]
  }

  lemma KnownAuthorityIdValid(k: nat)
    requires k < |KnownAuthorityIds|
    ensures IsAuthorityId(KnownAuthorityIds[k])
  {
    var s := KnownAuthorityIds[k];
    assert |s| == 4 && s[0] == 'L';
    assert s[0] in AllowedFirstCharacters;
    forall i | 0 <= i < 4 ensures s[i] in AllowedCharacters {
      AllowedCharacterAt(s[i]);
    }
  }

  /** Membership in `AllowedCharacters` spelled out. */
  lemma AllowedCharacterAt(c: char)
    requires ('0' <= c <= '9') || c in "CFGHJKLMNPRTVWXYZ"
    ensures c in AllowedCharacters
  {
    if '0' <= c <= '9' {
      assert AllowedCharacters[c as int - '0' as int] == c;
    } else {
      assert AllowedCharacters[10..] == "CFGHJKLMNPRTVWXYZ";
    }
  }

  /** `AssignedNumber.generate` with its five random draws
      `Math.floor(Math.random() * 27)` made a parameter: the characters at
      those positions of the allowed alphabet, appended one at a time. */
  method GenerateAssignedNumber(draws: seq<nat>) returns (assignedNumber: string)
    requires |draws| == 5
    requires forall i :: 0 <= i < 5 ==> draws[i] < |AllowedCharacters|
    ensures |assignedNumber| == 5
    ensures forall i :: 0 <= i < 5 ==> assignedNumber[i] == AllowedCharacters[draws[i]]
    ensures NewAssignedNumber(assignedNumber) == Ok(assignedNumber)
  {
    assignedNumber := "";
    for i := 0 to 5
      invariant |assignedNumber| == i
      invariant forall j :: 0 <= j < i ==> assignedNumber[j] == AllowedCharacters[draws[j]]
    {
      assignedNumber := assignedNumber + [AllowedCharacters[draws[i]]];
    }
  }

  /** A `DocumentID`: a validated authority id and assigned number. */
  datatype DocumentId = DocumentId(authorityId: AuthorityId, assignedNumber: AssignedNumber)

  /** `DocumentID.toString`: the nine characters of authority id then assigned number. */
  function DocumentIdString(d: DocumentId): (s: string)
    ensures |s| == 9
    ensures s[..4] == d.authorityId && s[4..] == d.assignedNumber
    ensures Checkable(s)
  {
    AllowedAreDigits(d.authorityId);
    AllowedAreDigits(d.assignedNumber);
    d.authorityId + d.assignedNumber
  }

  /** `DocumentID.checkDigit`: the check digit of the nine characters,
      which never throws because they are all valid `Digit` characters. */
  method DocumentCheckDigit(d: DocumentId) returns (checkDigit: nat)
    ensures checkDigit < 10
    ensures CheckDigitOf(DocumentIdString(d)) == Ok(checkDigit)
  {
    var s := DocumentIdString(d);
    var r := CheckDigit(s);
    CheckableHasCheckDigit(s);
    checkDigit := r.value;
  }
}
