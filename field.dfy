/** The field-definition record (Go `SfCustomField`) and the XML codec it is
    read and written through. */
module Field {
  import opened Basics
  import Random

  /** One field-definition document. `overlayId` and `testFlag` are attributes of
      the root element (`x-gs-overlay`, `x-gs-devobject`); an absent attribute
      reads as "" and false. */
  datatype SfCustomField = SfCustomField(
    fullName: string,
    externalId: bool,
    displayLabel: string,
    fieldType: string,
    overlayId: string,
    testFlag: bool,
    comment: string,
    xmlns: string)

  /** The only field type whose label is replaced. */
  const AutoNumber: string := "AutoNumber"

  /** Length of a generated label. */
  const LabelLength: nat := 8

  /** Go `xml.Header`, written in front of the re-encoded record. */
  const XmlHeader: string := "<?xml version=\"1.0\" encoding=\"UTF-8\"?>\n"

  function HeaderBytes(): (r: seq<byte>)
    ensures |r| == |XmlHeader|
  {
    Ascii(XmlHeader)
  }

  /** `encoding/xml` as far as this program uses it: `unmarshal` is
      `xml.Unmarshal` into an `SfCustomField` (None when it reports an error) and
      `marshalIndent` is `xml.MarshalIndent(out, "", "\t")` (None when it reports
      an error, e.g. a comment holding "--"). */
  datatype Codec = Codec(
    unmarshal: seq<byte> -> Option<SfCustomField>,
    marshalIndent: SfCustomField -> Option<seq<byte>>)

  /** The file at hand is one the transform rewrites: it decodes, its
      `x-gs-devobject` marker is set and its type is exactly "AutoNumber". */
  predicate Eligible(codec: Codec, data: seq<byte>)
  {
    match codec.unmarshal(data)
    case None => false
    case Some(out) => out.testFlag && out.fieldType == AutoNumber
  }

  /** `after` is `before` with a freshly generated label: every other field is
      the same and the label is `LabelLength` ASCII letters. */
  predicate Relabelled(before: SfCustomField, after: SfCustomField)
  {
    after.fullName == before.fullName &&
    after.externalId == before.externalId &&
    after.fieldType == before.fieldType &&
    after.overlayId == before.overlayId &&
    after.testFlag == before.testFlag &&
    after.comment == before.comment &&
    after.xmlns == before.xmlns &&
    |after.displayLabel| == LabelLength && Random.IsLetters(after.displayLabel)
  }

  /** The codec reads back what it wrote (with the header in front): a property
      of `encoding/xml` this model does not establish, used as a hypothesis. */
  predicate RoundTrips(codec: Codec, rec: SfCustomField)
  {
    match codec.marshalIndent(rec)
    case None => true
    case Some(obj) => codec.unmarshal(HeaderBytes() + obj) == Some(rec)
  }
}
