/** Messages that are lists of embedded messages under one field number, with fields
    their decoder does not know at any place: encoding them and decoding them again. */
module Parts {
  import opened Octets
  import opened Outcomes
  import opened ProtoWire
  import opened OtlpDecoder

  /** One field of a message: the one its decoder looks for, or any other. */
  datatype Part<T> = Known(message: T) | Unknown(field: WireField)

  function PartFields<T>(number: nat, encode: T -> Bytes, parts: seq<Part<T>>): seq<WireField> {
    if parts == [] then []
    else
      [match parts[0]
       case Known(message) => LenField(number, encode(message))
       case Unknown(f) => f] + PartFields(number, encode, parts[1..])
  }

  /** What the known parts mean, one after the other. */
  function PartItems<T, U>(meaning: T -> seq<U>, parts: seq<Part<T>>): seq<U> {
    if parts == [] then []
    else (if parts[0].Known? then meaning(parts[0].message) else []) + PartItems(meaning, parts[1..])
  }

  function LastPart<T>(parts: seq<Part<T>>): Option<T> {
    if parts == [] then None
    else Later(if parts[0].Known? then Some(parts[0].message) else None, LastPart(parts[1..]))
  }

  ghost predicate IsValidPart<T>(number: nat, encode: T -> Bytes, valid: T -> bool, part: Part<T>) {
    match part
    case Known(message) => valid(message) && IsEncodable(LenField(number, encode(message)))
    case Unknown(f) => IsEncodable(f) && !(f.LenField? && f.number == number)
  }

  ghost predicate AreValidParts<T>(number: nat, encode: T -> Bytes, valid: T -> bool, parts: seq<Part<T>>) {
    forall i | 0 <= i < |parts| :: IsValidPart(number, encode, valid, parts[i])
  }

  lemma {:induction false} PartsAreScanned<T>(number: nat, encode: T -> Bytes, valid: T -> bool, parts: seq<Part<T>>)
    requires AreValidParts(number, encode, valid, parts)
    ensures ScanMessage(EncodeFields(PartFields(number, encode, parts))) ==
            Scan(PartFields(number, encode, parts), None)
    ensures IsWellFormed(EncodeFields(PartFields(number, encode, parts)))
  {
    PartsAreEncodable(number, encode, valid, parts);
    MessageRoundTrip(PartFields(number, encode, parts));
  }

  lemma {:induction false} PartsAreEncodable<T>(number: nat, encode: T -> Bytes, valid: T -> bool, parts: seq<Part<T>>)
    requires AreValidParts(number, encode, valid, parts)
    ensures forall f | f in PartFields(number, encode, parts) :: IsEncodable(f)
  {
    if parts != [] {
      assert IsValidPart(number, encode, valid, parts[0]);
      RestIsValid(number, encode, valid, parts);
      PartsAreEncodable(number, encode, valid, parts[1..]);
    }
  }

  lemma RestIsValid<T>(number: nat, encode: T -> Bytes, valid: T -> bool, parts: seq<Part<T>>)
    requires AreValidParts(number, encode, valid, parts) && parts != []
    ensures AreValidParts(number, encode, valid, parts[1..])
  {
    assert forall i | 0 <= i < |parts[1..]| :: parts[1..][i] == parts[i + 1];
  }

  /** The decoder of the embedded messages undoes their encoding. */
  ghost predicate Inverts<T(!new), U>(encode: T -> Bytes, valid: T -> bool, decode: Bytes -> Result<seq<U>>,
                                      meaning: T -> seq<U>) {
    forall message | valid(message) :: decode(encode(message)) == Ok(meaning(message))
  }

  lemma {:induction false} PartsFold<T(!new), U>(
    number: nat, encode: T -> Bytes, valid: T -> bool, decode: Bytes -> Result<seq<U>>, meaning: T -> seq<U>,
    parts: seq<Part<T>>, items: seq<U>)
    requires AreValidParts(number, encode, valid, parts) && Inverts(encode, valid, decode, meaning)
    ensures Fold(RepeatedStep(number, decode), items, Scan(PartFields(number, encode, parts), None))
            == Ok(items + PartItems(meaning, parts))
    decreases |parts|
  {
    if parts == [] {
      assert items + PartItems(meaning, parts) == items;
    } else {
      var found := if parts[0].Known? then meaning(parts[0].message) else [];
      assert IsValidPart(number, encode, valid, parts[0]);
      RestIsValid(number, encode, valid, parts);
      PartsFold(number, encode, valid, decode, meaning, parts[1..], items + found);
      FirstPart(number, encode, valid, decode, meaning, parts, items);
      assert items + found + PartItems(meaning, parts[1..]) == items + PartItems(meaning, parts);
    }
  }

  lemma FirstPart<T(!new), U>(
    number: nat, encode: T -> Bytes, valid: T -> bool, decode: Bytes -> Result<seq<U>>, meaning: T -> seq<U>,
    parts: seq<Part<T>>, items: seq<U>)
    requires parts != [] && IsValidPart(number, encode, valid, parts[0]) && Inverts(encode, valid, decode, meaning)
    ensures var found := if parts[0].Known? then meaning(parts[0].message) else [];
            Fold(RepeatedStep(number, decode), items, Scan(PartFields(number, encode, parts), None))
            == Fold(RepeatedStep(number, decode), items + found, Scan(PartFields(number, encode, parts[1..]), None))
  {
    var fields := PartFields(number, encode, parts);
    assert fields[1..] == PartFields(number, encode, parts[1..]);
    assert items + [] == items;
  }

  /** A list of embedded messages, encoded, decodes to the items of all of them in order. */
  lemma PartsRoundTrip<T(!new), U>(
    number: nat, encode: T -> Bytes, valid: T -> bool, decode: Bytes -> Result<seq<U>>, meaning: T -> seq<U>,
    parts: seq<Part<T>>)
    requires AreValidParts(number, encode, valid, parts) && Inverts(encode, valid, decode, meaning)
    ensures DecodeRepeated(number, decode, EncodeFields(PartFields(number, encode, parts)))
            == Ok(PartItems(meaning, parts))
  {
    PartsAreScanned(number, encode, valid, parts);
    PartsFold(number, encode, valid, decode, meaning, parts, []);
    assert [] + PartItems(meaning, parts) == PartItems(meaning, parts);
  }
}
