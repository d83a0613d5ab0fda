/**
 * The pack-version decoder of src/index.ts (`extractPackVersion` and its
 * `normalize` helper): find `version.json` in the client archive and read
 * its `pack_version` field in one of three shapes.
 */
module PackVersion {

  import opened Wrappers
  import opened Json

  /** The fixed name of the metadata entry inside the client archive. */
  const MetadataName: string := "version.json"

  /** JavaScript prints a number of at least this magnitude in exponent form. */
  const ExponentThreshold: int := 1_000_000_000_000_000_000_000

  /**
   * One identifier as the source stores it: whatever JSON value the archive
   * carried (the `data`/`resource` shape copies it unchecked), or the NaN
   * that `Number(...)` yields for text it cannot read.
   */
  datatype PackValue = Value(json: Json) | NaN

  /** `{ datapack, resourcepack }`. */
  datatype Formats = Formats(datapack: PackValue, resourcepack: PackValue)

  /** An archive entry's text: either JSON that parses or text for which `JSON.parse` throws. */
  datatype EntryText = Parsed(json: Json) | Unparsable

  /** An opened archive: entry names to their contents. */
  type Archive = map<string, EntryText>

  /** The reasons `extractPackVersion` throws. */
  datatype DecodeError =
    | MissingMetadata   // `version.json not found`
    | MalformedJson     // `JSON.parse` rejects the entry
    | ShapeMismatch     // a TypeError: `pack_version` read from null, or `in` applied to a non-object

  function Pow10(k: nat): (p: nat)
    ensures p >= 1
  {
    if k == 0 then 1 else 10 * Pow10(k - 1)
  }

  /** The number of decimal digits JavaScript prints for a positive integer. */
  function Digits(n: nat): (d: nat)
    ensures d >= 1
  {
    if n < 10 then 1 else 1 + Digits(n / 10)
  }

  lemma {:induction false} DigitsBound(n: nat)
    requires n >= 1
    ensures Pow10(Digits(n) - 1) <= n < Pow10(Digits(n))
  {
    if n >= 10 {
      DigitsBound(n / 10);
      assert Digits(n) - 1 == Digits(n / 10);
      assert Pow10(Digits(n)) == 10 * Pow10(Digits(n / 10));
    }
  }

  /**
   * The exact value of the text `${major}.${minor}` for an integer major and
   * a positive integer minor printed without exponent: the major's sign
   * applies to the whole text.
   */
  function DecimalText(major: int, minor: nat): real
    requires minor >= 1
  {
    var fraction := minor as real / Pow10(Digits(minor)) as real;
    if major >= 0 then major as real + fraction else major as real - fraction
  }

  /** The decimal text keeps the major as its integer part and the minor as a nonzero fraction. */
  lemma DecimalIntegerPart(major: int, minor: nat)
    requires minor >= 1
    ensures major >= 0 ==> major as real < DecimalText(major, minor) < (major + 1) as real
    ensures major < 0 ==> (major - 1) as real < DecimalText(major, minor) < major as real
  {
    DigitsBound(minor);
    ProperFraction(minor, Pow10(Digits(minor)));
  }

  lemma ProperFraction(m: nat, p: nat)
    requires 0 < m < p
    ensures 0.0 < m as real / p as real < 1.0
  {
    var f := m as real / p as real;
    assert f * p as real == m as real;
  }

  /** "5.10" and "5.1" are the same number: a trailing zero of the minor is lost. */
  lemma TrailingZeroCollapses(major: int, minor: nat)
    requires minor >= 1
    ensures DecimalText(major, 10 * minor) == DecimalText(major, minor)
  {
    assert (10 * minor) / 10 == minor;
    assert Digits(10 * minor) == 1 + Digits(minor);
    var p := Pow10(Digits(minor));
    assert Pow10(Digits(10 * minor)) == 10 * p;
    ScaledFraction(minor, p);
  }

  lemma ScaledFraction(m: nat, p: nat)
    requires p >= 1
    ensures (10 * m) as real / (10 * p) as real == m as real / p as real
  {
    var f := m as real / p as real;
    assert f * p as real == m as real;
    assert f * (10 * p) as real == (10 * m) as real;
  }

  /** JavaScript's `Number(v)` on a JSON value; `undefined` gives NaN. */
  function ToNumber(v: Option<Json>): (r: PackValue)
    ensures r.NaN? <==> v.None? || v.value.JString? || v.value.JArray? || v.value.JObject?
    ensures r.Value? ==> r.json.JNumber?
    ensures v.Some? && v.value.JNumber? ==> r == Value(v.value)
  {
    match v
    case Some(JNumber(x)) => Value(JNumber(x))
    case Some(JNull) => Value(JNumber(0.0))
    case Some(JBool(b)) => Value(JNumber(if b then 1.0 else 0.0))
    case _ => NaN
  }

  predicate IsInteger(x: real)
  {
    x == x.Floor as real
  }

  /**
   * `normalize(major, minor)`: `Number(major)` when `minor === 0`, otherwise
   * `Number(\`${major}.${minor}\`)`. The text is a number only when the major
   * is an integer printed without exponent and the minor a positive integer.
   */
  function Normalize(major: Option<Json>, minor: Option<Json>): (r: PackValue)
    ensures minor == Some(JNumber(0.0)) ==> r == ToNumber(major)
    ensures minor != Some(JNumber(0.0)) && r != NaN ==>
              exists a: int, b: nat :: b >= 1 && major == Some(JNumber(a as real)) && minor == Some(JNumber(b as real))
                                       && r == Value(JNumber(DecimalText(a, b)))
  {
    if minor == Some(JNumber(0.0)) then ToNumber(major)
    else if major.Some? && major.value.JNumber? && minor.Some? && minor.value.JNumber? then
      var a := major.value.n;
      var b := minor.value.n;
      if IsInteger(a) && -ExponentThreshold < a.Floor < ExponentThreshold
         && IsInteger(b) && 1 <= b.Floor < ExponentThreshold
      then
        assert major == Some(JNumber(a.Floor as real)) && minor == Some(JNumber(b.Floor as real));
        Value(JNumber(DecimalText(a.Floor, b.Floor)))
      else NaN
    else NaN
  }

  /** The intended value of one major/minor side: the major alone for minor 0, else `major.minor`. */
  function MajorMinor(major: int, minor: nat): real
  {
    if minor == 0 then major as real else DecimalText(major, minor)
  }

  /** Decodes the parsed `version.json` document by the shape of its `pack_version`. */
  function DecodePackVersion(ver: Json): (r: Result<Formats, DecodeError>)
    ensures r.Failure? ==> r.error == ShapeMismatch
    ensures r.Failure? <==> (ver.JNull? || Field(ver, "pack_version").None?
                             || Field(ver, "pack_version").value.JNull?
                             || Field(ver, "pack_version").value.JBool?
                             || Field(ver, "pack_version").value.JString?)
  {
    if ver.JNull? then Failure(ShapeMismatch)
    else match Field(ver, "pack_version")
      case None => Failure(ShapeMismatch)
      case Some(pv) =>
        if pv.JNumber? then Success(Formats(Value(pv), Value(pv)))
        else if pv.JObject? && "data" in pv.fields && "resource" in pv.fields then
          Success(Formats(Value(pv.fields["data"]), Value(pv.fields["resource"])))
        else if pv.JObject? || pv.JArray? then
          Success(Formats(Normalize(Field(pv, "data_major"), Field(pv, "data_minor")),
                          Normalize(Field(pv, "resource_major"), Field(pv, "resource_minor"))))
        else Failure(ShapeMismatch)
  }

  /** `extractPackVersion` on an opened archive. */
  function ExtractPackVersion(archive: Archive): (r: Result<Formats, DecodeError>)
    ensures r == Failure(MissingMetadata) <==> MetadataName !in archive
    ensures r == Failure(MalformedJson) <==> MetadataName in archive && archive[MetadataName].Unparsable?
  {
    if MetadataName !in archive then Failure(MissingMetadata)
    else match archive[MetadataName]
      case Unparsable => Failure(MalformedJson)
      case Parsed(ver) => DecodePackVersion(ver)
  }

  /** A `version.json` document whose only field is `pack_version`. */
  function VersionDocument(packVersion: Json): Json
  {
    JObject(map["pack_version" := packVersion])
  }

  /** A plain number n decodes to `{n, n}`. */
  lemma NumberShape(ver: Json, n: real)
    requires Field(ver, "pack_version") == Some(JNumber(n))
    ensures DecodePackVersion(ver) == Success(Formats(Value(JNumber(n)), Value(JNumber(n))))
  {
  }

  /** An object holding both `data` and `resource` decodes to those two values, unchanged. */
  lemma DataResourceShape(ver: Json, fields: map<string, Json>)
    requires Field(ver, "pack_version") == Some(JObject(fields))
    requires "data" in fields && "resource" in fields
    ensures DecodePackVersion(ver) == Success(Formats(Value(fields["data"]), Value(fields["resource"])))
  {
  }

  /**
   * The major/minor shape with integer fields decodes each side to the major
   * when its minor is 0 and to the decimal `major.minor` otherwise.
   */
  lemma MajorMinorShape(dataMajor: int, dataMinor: nat, resourceMajor: int, resourceMinor: nat)
    requires -ExponentThreshold < dataMajor < ExponentThreshold && dataMinor < ExponentThreshold
    requires -ExponentThreshold < resourceMajor < ExponentThreshold && resourceMinor < ExponentThreshold
    ensures DecodePackVersion(VersionDocument(JObject(map[
              "data_major" := JNumber(dataMajor as real), "data_minor" := JNumber(dataMinor as real),
              "resource_major" := JNumber(resourceMajor as real), "resource_minor" := JNumber(resourceMinor as real)])))
            == Success(Formats(Value(JNumber(MajorMinor(dataMajor, dataMinor))),
                               Value(JNumber(MajorMinor(resourceMajor, resourceMinor)))))
  {
    var fields := map[
      "data_major" := JNumber(dataMajor as real), "data_minor" := JNumber(dataMinor as real),
      "resource_major" := JNumber(resourceMajor as real), "resource_minor" := JNumber(resourceMinor as real)];
    assert "data" !in fields by {
      assert "data" != "data_major" && "data" != "data_minor";
      assert "data" != "resource_major" && "data" != "resource_minor";
    }
    assert (dataMajor as real).Floor == dataMajor && (dataMinor as real).Floor == dataMinor;
    assert (resourceMajor as real).Floor == resourceMajor && (resourceMinor as real).Floor == resourceMinor;
  }

  /** The same number n presented in each of the three shapes decodes to `{n, n}`. */
  lemma ShapesAgree(n: real)
    ensures var expected := Success(Formats(Value(JNumber(n)), Value(JNumber(n))));
            && DecodePackVersion(VersionDocument(JNumber(n))) == expected
            && DecodePackVersion(VersionDocument(JObject(map["data" := JNumber(n), "resource" := JNumber(n)]))) == expected
            && DecodePackVersion(VersionDocument(JObject(map[
                 "data_major" := JNumber(n), "data_minor" := JNumber(0.0),
                 "resource_major" := JNumber(n), "resource_minor" := JNumber(0.0)]))) == expected
  {
    var fields := map[
      "data_major" := JNumber(n), "data_minor" := JNumber(0.0),
      "resource_major" := JNumber(n), "resource_minor" := JNumber(0.0)];
    assert "data" !in fields by {
      assert "data" != "data_major" && "data" != "data_minor";
      assert "data" != "resource_major" && "data" != "resource_minor";
    }
  }

  /** `{5, 2, 6, 1}` decodes to `{5.2, 6.1}`, and minors 1 and 10 decode alike. */
  lemma MajorMinorExamples()
    ensures MajorMinor(5, 2) == 5.2 && MajorMinor(6, 1) == 6.1
    ensures MajorMinor(5, 10) == MajorMinor(5, 1) == 5.1
  {
    TrailingZeroCollapses(5, 1);
  }
}
