/**
  The device certificate inspector (16-iot-certificates/inspect_certificate.py):
  the validity window, the self-signed check, the extension details, the
  hexadecimal fingerprints, and the thumbprint `main` saves.

  A certificate is a plain record. Instants are whole microseconds of UTC
  time, as `datetime.utcnow()` has them; the two fingerprints are the digest
  bytes the library computes, taken as given.
*/
module CertInspector {
  import opened Wrappers
  import Decimal
  import Text

  type byte = x: nat | x < 256

  /** One attribute of a distinguished name, such as CN=device-001. */
  datatype Attribute = Attribute(oid: string, value: string)

  /** A name compares as its list of relative distinguished names, each a set of attributes. */
  type Name = seq<set<Attribute>>

  datatype KeyUsage = KeyUsage(
    digitalSignature: bool, contentCommitment: bool, keyEncipherment: bool,
    dataEncipherment: bool, keyAgreement: bool, keyCertSign: bool, crlSign: bool,
    encipherOnly: bool, decipherOnly: bool)

  datatype GeneralName = GeneralName(kind: string, value: string)

  /**
    An extension's value; its kind fixes the name the library gives its
    identifier. `text` is what `str()` of the value prints, for the kinds the
    inspector shows that way.
  */
  datatype ExtensionValue =
    | SubjectAltName(names: seq<GeneralName>, text: string)
    | BasicConstraints(ca: bool, pathLength: Option<nat>)
    | KeyUsageValue(usage: KeyUsage)
    | OtherValue(oidName: string, text: string)

  datatype Extension = Extension(critical: bool, value: ExtensionValue)

  datatype Certificate = Certificate(
    subject: Name, issuer: Name, notBefore: int, notAfter: int,
    sha256: seq<byte>, sha1: seq<byte>, extensions: seq<Extension>)

  // ---------------------------------------------------------------------
  // Validity (lines 85-94)

  const MicrosPerDay := 86_400_000_000

  datatype Validity = NotYetValid | Expired | Valid(daysRemaining: nat)

  /** Before the window, after it, or inside it with `(not_after - now).days` whole days left. */
  function Classify(notBefore: int, notAfter: int, now: int): (v: Validity)
    ensures v.NotYetValid? <==> now < notBefore
    ensures v.Expired? <==> notBefore <= now && notAfter < now
    ensures v.Valid? <==> notBefore <= now <= notAfter
  {
    if now < notBefore then NotYetValid
    else if now > notAfter then Expired
    else Valid((notAfter - now) / MicrosPerDay)
  }

  /** The days remaining are the whole days that fit before `not_after`: a floor, never negative. */
  lemma DaysRemainingIsFloor(notBefore: int, notAfter: int, now: int)
    requires notBefore <= now <= notAfter
    ensures var d := Classify(notBefore, notAfter, now).daysRemaining;
      d * MicrosPerDay <= notAfter - now < (d + 1) * MicrosPerDay
  {
    var left := notAfter - now;
    var d := left / MicrosPerDay;
    assert left == d * MicrosPerDay + left % MicrosPerDay;
  }

  /** The last microsecond of the window still counts as valid, with no whole day left. */
  lemma LastInstantIsValid(notBefore: int, notAfter: int)
    requires notBefore <= notAfter
    ensures Classify(notBefore, notAfter, notAfter) == Valid(0)
    ensures Classify(notBefore, notAfter, notBefore).Valid?
  {
  }

  // ---------------------------------------------------------------------
  // Self-signed (lines 68-70)

  /** The warning is shown exactly when the subject equals the issuer. */
  predicate SelfSigned(c: Certificate) {
    c.subject == c.issuer
  }

  // ---------------------------------------------------------------------
  // Key usage (lines 152-162)

  /** The seven labels the inspector knows, in the order it lists them. */
  const UsageLabels: seq<string> := [
    "Digital Signature", "Key Encipherment", "Content Commitment", "Data Encipherment",
    "Key Agreement", "Certificate Signing", "CRL Signing"]

  /** The flag behind each of `UsageLabels`; `encipher_only` and `decipher_only` have none. */
  function UsageFlags(ku: KeyUsage): (flags: seq<bool>)
    ensures |flags| == |UsageLabels|
  {
    [ku.digitalSignature, ku.keyEncipherment, ku.contentCommitment, ku.dataEncipherment,
     ku.keyAgreement, ku.keyCertSign, ku.crlSign]
  }

  /** The labels whose flag is set, in their given order. */
  function Select(labels: seq<string>, flags: seq<bool>): seq<string>
    requires |labels| == |flags|
  {
    if labels == [] then []
    else (if flags[0] then [labels[0]] else []) + Select(labels[1..], flags[1..])
  }

  /** The seven conditional appends: the labels whose flags are set, in the fixed order. */
  function UsageList(ku: KeyUsage): seq<string> {
    Select(UsageLabels, UsageFlags(ku))
  }

  /** A label is listed exactly when its flag is set. */
  lemma {:induction false} SelectMembers(labels: seq<string>, flags: seq<bool>)
    requires |labels| == |flags|
    requires forall i, j | 0 <= i < j < |labels| :: labels[i] != labels[j]
    ensures forall i | 0 <= i < |labels| :: labels[i] in Select(labels, flags) <==> flags[i]
    ensures forall x | x in Select(labels, flags) :: x in labels
  {
    SelectFrom(labels, flags);
    if labels != [] {
      SelectMembers(labels[1..], flags[1..]);
      forall i | 0 <= i < |labels|
        ensures labels[i] in Select(labels, flags) <==> flags[i]
      {
        if i > 0 {
          assert labels[i] == labels[1..][i - 1];
          assert labels[i] != labels[0];
        } else {
          assert labels[0] !in labels[1..] by {
            forall k | 0 <= k < |labels[1..]| ensures labels[1..][k] != labels[0] {
              assert labels[1..][k] == labels[k + 1];
            }
          }
        }
      }
    }
  }

  /** Only given labels are selected. */
  lemma {:induction false} SelectFrom(labels: seq<string>, flags: seq<bool>)
    requires |labels| == |flags|
    ensures forall x | x in Select(labels, flags) :: x in labels
  {
    if labels != [] {
      SelectFrom(labels[1..], flags[1..]);
      forall x | x in Select(labels[1..], flags[1..]) ensures x in labels {
        var k :| 0 <= k < |labels[1..]| && labels[1..][k] == x;
        assert labels[k + 1] == x;
      }
    }
  }

  /** With no flag set nothing is selected. */
  lemma {:induction false} SelectNone(labels: seq<string>, flags: seq<bool>)
    requires |labels| == |flags| && forall i | 0 <= i < |flags| :: !flags[i]
    ensures Select(labels, flags) == []
  {
    if labels != [] {
      SelectNone(labels[1..], flags[1..]);
    }
  }

  /** Labels whose flags are unset before position `n` do not show. */
  lemma {:induction false} SelectSkip(labels: seq<string>, flags: seq<bool>, n: nat)
    requires |labels| == |flags| && n <= |flags| && forall i | 0 <= i < n :: !flags[i]
    ensures Select(labels, flags) == Select(labels[n..], flags[n..])
  {
    if n > 0 {
      SelectSkip(labels[1..], flags[1..], n - 1);
      assert labels[1..][n - 1..] == labels[n..];
      assert flags[1..][n - 1..] == flags[n..];
    }
  }

  /** The positions of the set flags, in increasing order. */
  function SetPositions(flags: seq<bool>): (ps: seq<nat>)
    ensures forall j | 0 <= j < |ps| :: ps[j] < |flags|
  {
    if flags == [] then []
    else
      var rest := SetPositions(flags[1..]);
      if flags[0] then [0] + Shift(rest) else Shift(rest)
  }

  function Shift(ps: seq<nat>): (out: seq<nat>)
    ensures |out| == |ps| && forall j | 0 <= j < |ps| :: out[j] == ps[j] + 1
  {
    seq(|ps|, j requires 0 <= j < |ps| => ps[j] + 1)
  }

  /** Only set flags have their position listed. */
  lemma {:induction false} SetPositionsAreSet(flags: seq<bool>)
    ensures forall j | 0 <= j < |SetPositions(flags)| :: flags[SetPositions(flags)[j]]
  {
    if flags != [] {
      var rest := SetPositions(flags[1..]);
      SetPositionsAreSet(flags[1..]);
      var ps := SetPositions(flags);
      var d := if flags[0] then 1 else 0;
      forall j | d <= j < |ps| ensures flags[ps[j]] {
        assert ps[j] == rest[j - d] + 1;
        assert flags[1..][rest[j - d]];
      }
    }
  }

  /** The positions are strictly increasing. */
  lemma {:induction false} SetPositionsIncrease(flags: seq<bool>)
    ensures forall j, j' | 0 <= j < j' < |SetPositions(flags)| :: SetPositions(flags)[j] < SetPositions(flags)[j']
  {
    if flags != [] {
      var rest := SetPositions(flags[1..]);
      SetPositionsIncrease(flags[1..]);
      var ps := SetPositions(flags);
      var d := if flags[0] then 1 else 0;
      forall j, j' | 0 <= j < j' < |ps| ensures ps[j] < ps[j'] {
        assert ps[j'] == rest[j' - d] + 1;
        if j >= d {
          assert ps[j] == rest[j - d] + 1;
        }
      }
    }
  }

  /** Every set flag has its position listed. */
  lemma {:induction false} SetPositionsComplete(flags: seq<bool>)
    ensures forall i | 0 <= i < |flags| && flags[i] :: i in SetPositions(flags)
  {
    if flags != [] {
      var rest := SetPositions(flags[1..]);
      SetPositionsComplete(flags[1..]);
      var ps := SetPositions(flags);
      var d := if flags[0] then 1 else 0;
      forall i | 0 <= i < |flags| && flags[i] ensures i in ps {
        if i == 0 {
          assert ps[0] == 0;
        } else {
          assert flags[1..][i - 1];
          var k :| 0 <= k < |rest| && rest[k] == i - 1;
          assert ps[d + k] == i;
        }
      }
    }
  }

  /** Selecting keeps the labels at the set positions, in their order. */
  lemma {:induction false} SelectAtPositions(labels: seq<string>, flags: seq<bool>)
    requires |labels| == |flags|
    ensures |Select(labels, flags)| == |SetPositions(flags)|
    ensures forall j | 0 <= j < |SetPositions(flags)| :: Select(labels, flags)[j] == labels[SetPositions(flags)[j]]
  {
    if labels != [] {
      SelectAtPositions(labels[1..], flags[1..]);
      var head: seq<string> := if flags[0] then [labels[0]] else [];
      var tail := Select(labels[1..], flags[1..]);
      var rest := SetPositions(flags[1..]);
      assert Select(labels, flags) == head + tail;
      assert SetPositions(flags) == (if flags[0] then [0] else []) + Shift(rest);
      ShiftedPositions(labels, flags, head, tail, rest);
    }
  }

  /** One step of the induction above: the tail's positions, moved up by one, follow the head. */
  lemma ShiftedPositions(labels: seq<string>, flags: seq<bool>, head: seq<string>, tail: seq<string>, rest: seq<nat>)
    requires |labels| == |flags| > 0
    requires head == (if flags[0] then [labels[0]] else []) && |tail| == |rest|
    requires forall j | 0 <= j < |rest| :: rest[j] < |flags| - 1 && tail[j] == labels[1..][rest[j]]
    ensures forall j | 0 <= j < |head| + |rest| ::
      (head + tail)[j] == labels[((if flags[0] then [0] else []) + Shift(rest))[j]]
  {
    var ps := (if flags[0] then [0] else []) + Shift(rest);
    forall j | 0 <= j < |head| + |rest| ensures (head + tail)[j] == labels[ps[j]] {
      if j >= |head| {
        var d := j - |head|;
        assert ps[j] == rest[d] + 1;
        assert labels[1..][rest[d]] == labels[rest[d] + 1];
      }
    }
  }

  /**
    The list is the labels of the set flags in the fixed order of the seven
    appends, each at most once: every set flag shows its label, and no other
    label is shown.
  */
  lemma UsageListMembers(ku: KeyUsage)
    ensures var ps := SetPositions(UsageFlags(ku));
      && |UsageList(ku)| == |ps|
      && (forall j | 0 <= j < |ps| :: UsageList(ku)[j] == UsageLabels[ps[j]])
      && (forall j, j' | 0 <= j < j' < |ps| :: ps[j] < ps[j'])
      && (forall j | 0 <= j < |ps| :: UsageFlags(ku)[ps[j]])
      && (forall i | 0 <= i < |UsageLabels| && UsageFlags(ku)[i] :: i in ps)
    ensures forall i | 0 <= i < |UsageLabels| :: UsageLabels[i] in UsageList(ku) <==> UsageFlags(ku)[i]
    ensures forall x | x in UsageList(ku) :: x in UsageLabels
    ensures forall j, j' | 0 <= j < j' < |UsageList(ku)| :: UsageList(ku)[j] != UsageList(ku)[j']
  {
    SelectMembers(UsageLabels, UsageFlags(ku));
    SelectAtPositions(UsageLabels, UsageFlags(ku));
    SetPositionsIncrease(UsageFlags(ku));
    SetPositionsAreSet(UsageFlags(ku));
    SetPositionsComplete(UsageFlags(ku));
    var ps := SetPositions(UsageFlags(ku));
    forall j, j' | 0 <= j < j' < |UsageList(ku)| ensures UsageList(ku)[j] != UsageList(ku)[j'] {
      assert ps[j] < ps[j'];
    }
  }

  /** Whether encipher-only or decipher-only is set never changes the list. */
  lemma UsageListIgnoresEncipherDecipher(ku: KeyUsage, e: bool, d: bool)
    ensures UsageList(ku.(encipherOnly := e, decipherOnly := d)) == UsageList(ku)
  {
  }

  /** The printed line: the labels joined by ", ". */
  function UsageLine(ku: KeyUsage): string {
    "      " + Text.Join(UsageList(ku), ", ")
  }

  /** CRL signing alone prints one label; with none of the seven set the line is only its indent. */
  lemma UsageLineExamples()
    ensures UsageLine(KeyUsage(false, false, false, false, false, false, true, false, false)) == "      CRL Signing"
    ensures UsageLine(KeyUsage(false, false, false, false, false, false, false, true, true)) == "      "
  {
    var crl := UsageFlags(KeyUsage(false, false, false, false, false, false, true, false, false));
    SelectSkip(UsageLabels, crl, 6);
    assert Select(UsageLabels[6..], crl[6..]) == ["CRL Signing"];
    SelectNone(UsageLabels, UsageFlags(KeyUsage(false, false, false, false, false, false, false, true, true)));
  }

  /**
    Two labels are separated by ", " in the order of the appends: key
    encipherment before content commitment, though a certificate's key usage
    declares them the other way round.
  */
  lemma UsageLineTwoLabels()
    ensures UsageLine(KeyUsage(false, true, true, false, false, false, false, false, false))
      == "      " + "Key Encipherment" + ", " + "Content Commitment"
  {
    var ku := KeyUsage(false, true, true, false, false, false, false, false, false);
    var two := ["Key Encipherment", "Content Commitment"];
    var flags := UsageFlags(ku);
    SelectNone(UsageLabels[3..], flags[3..]);
    assert Select(UsageLabels[2..], flags[2..]) == ["Content Commitment"] + Select(UsageLabels[3..], flags[3..]);
    assert Select(UsageLabels[1..], flags[1..]) == ["Key Encipherment"] + Select(UsageLabels[2..], flags[2..]);
    SelectSkip(UsageLabels, flags, 1);
    assert UsageList(ku) == two;
    assert Text.Join(two, ", ") == "Key Encipherment" + ", " + "Content Commitment";
  }

  // ---------------------------------------------------------------------
  // Extensions (lines 134-171)

  function BoolText(b: bool): string {
    if b then "True" else "False"
  }

  /** `extension.oid._name`, as the `cryptography` library names the identifiers. */
  function ExtensionName(v: ExtensionValue): string {
    match v
    case SubjectAltName(_, _) => "subjectAltName"
    case BasicConstraints(_, _) => "basicConstraints"
    case KeyUsageValue(_) => "keyUsage"
    case OtherValue(name, _) => name
  }

  function NameLines(names: seq<GeneralName>): (lines: seq<string>)
    ensures |lines| == |names|
  {
    if names == [] then []
    else ["      " + names[0].kind + ": " + names[0].value] + NameLines(names[1..])
  }

  /** The detail lines under one extension's heading. */
  function DetailLines(v: ExtensionValue): seq<string> {
    match v
    case SubjectAltName(names, text) =>
      // the test on line 142 compares with "subjectAlternativeName", a name
      // the library never gives, so the generic display applies
      if ExtensionName(v) == "subjectAlternativeName" then NameLines(names) else ["      " + text]
    case BasicConstraints(ca, pathLength) =>
      ["      CA: " + BoolText(ca)]
        + (if pathLength.Some? then ["      Path Length: " + Decimal.FromNat(pathLength.value)] else [])
    case KeyUsageValue(ku) => [UsageLine(ku)]
    case OtherValue(_, text) => ["      " + text]
  }

  const CriticalLine := "      (CRITICAL)"

  function ExtensionLines(e: Extension): (lines: seq<string>)
    ensures |lines| == 1 + |DetailLines(e.value)| + (if e.critical then 1 else 0)
  {
    ["  • " + ExtensionName(e.value) + ":"] + DetailLines(e.value) + (if e.critical then [CriticalLine] else [])
  }

  /**
    "(CRITICAL)" closes an extension's lines exactly when it is critical,
    unless the extension is one shown by its value and that value reads "(CRITICAL)".
  */
  lemma CriticalMarked(e: Extension)
    requires e.value.OtherValue? || e.value.SubjectAltName? ==> e.value.text != "(CRITICAL)"
    ensures ExtensionLines(e)[|ExtensionLines(e)| - 1] == CriticalLine <==> e.critical
  {
    var d := DetailLines(e.value);
    if !e.critical {
      assert |d| > 0;
      assert ExtensionLines(e)[|ExtensionLines(e)| - 1] == d[|d| - 1];
      DetailNotCritical(e.value);
    }
  }

  /** No detail line reads "(CRITICAL)", except the value text of an extension shown as is. */
  lemma DetailNotCritical(v: ExtensionValue)
    requires v.OtherValue? || v.SubjectAltName? ==> v.text != "(CRITICAL)"
    ensures forall i | 0 <= i < |DetailLines(v)| :: DetailLines(v)[i] != CriticalLine
  {
    match v
    case SubjectAltName(_, text) =>
      OtherLineNotCritical(text);
    case BasicConstraints(_, pathLength) =>
      if pathLength.Some? {
        var line := "      Path Length: " + Decimal.FromNat(pathLength.value);
        assert line[6] == 'P' != CriticalLine[6];
      }
    case KeyUsageValue(ku) =>
      UsageLineNotCritical(ku);
    case OtherValue(_, text) =>
      OtherLineNotCritical(text);
  }

  lemma UsageLineNotCritical(ku: KeyUsage)
    ensures UsageLine(ku) != CriticalLine
  {
    var labels := UsageList(ku);
    SelectFrom(UsageLabels, UsageFlags(ku));
    if labels != [] {
      var line := UsageLine(ku);
      assert labels[0] in UsageLabels;
      assert Text.Join(labels, ", ")[..|labels[0]|] == labels[0] by {
        JoinStartsWithFirst(labels, ", ");
      }
      assert line[6] == labels[0][0];
    }
  }

  lemma JoinStartsWithFirst(parts: seq<string>, sep: string)
    requires parts != []
    ensures |Text.Join(parts, sep)| >= |parts[0]| && Text.Join(parts, sep)[..|parts[0]|] == parts[0]
  {
  }

  /** An extension shown by its value cannot print "(CRITICAL)" unless its value text is "(CRITICAL)". */
  lemma OtherLineNotCritical(text: string)
    ensures ("      " + text == CriticalLine) <==> text == "(CRITICAL)"
  {
    if "      " + text == CriticalLine {
      assert text == CriticalLine[6..];
    }
  }

  /** "Path Length" is printed exactly when the constraint has one. */
  lemma PathLengthShown(ca: bool, pathLength: Option<nat>)
    ensures |DetailLines(BasicConstraints(ca, pathLength))| == if pathLength.Some? then 2 else 1
    ensures pathLength.Some? ==>
      DetailLines(BasicConstraints(ca, pathLength))[1] == "      Path Length: " + Decimal.FromNat(pathLength.value)
  {
  }

  /**
    A subject alternative name is headed "subjectAltName" and shown by its
    value text, like any extension the inspector does not know: the branch
    listing each name never runs.
  */
  lemma SubjectAltNameShownAsValue(names: seq<GeneralName>, text: string, critical: bool)
    ensures ExtensionLines(Extension(critical, SubjectAltName(names, text)))
      == ["  • subjectAltName:", "      " + text] + (if critical then [CriticalLine] else [])
    ensures ExtensionLines(Extension(critical, SubjectAltName(names, text)))
      == ExtensionLines(Extension(critical, OtherValue("subjectAltName", text)))
  {
    assert ExtensionName(SubjectAltName(names, text)) == "subjectAltName" != "subjectAlternativeName";
    assert DetailLines(SubjectAltName(names, text)) == ["      " + text];
    assert "  • " + "subjectAltName" + ":" == "  • subjectAltName:";
  }

  function AllExtensionLines(es: seq<Extension>): seq<string> {
    if es == [] then [] else ExtensionLines(es[0]) + AllExtensionLines(es[1..])
  }

  lemma {:induction false} AllExtensionLinesAppend(a: seq<Extension>, b: seq<Extension>)
    ensures AllExtensionLines(a + b) == AllExtensionLines(a) + AllExtensionLines(b)
    decreases |a|
  {
    if a == [] {
      assert a + b == b;
    } else {
      assert (a + b)[0] == a[0];
      assert (a + b)[1..] == a[1..] + b;
      AllExtensionLinesAppend(a[1..], b);
    }
  }

  /**
    The extensions are printed one after another in the certificate's order:
    the i-th extension's lines follow those of the extensions before it.
  */
  lemma ExtensionsInOrder(es: seq<Extension>, i: nat)
    requires i < |es|
    ensures var before := |AllExtensionLines(es[..i])|;
      && before + |ExtensionLines(es[i])| <= |AllExtensionLines(es)|
      && AllExtensionLines(es)[before..before + |ExtensionLines(es[i])|] == ExtensionLines(es[i])
  {
    assert es == es[..i] + es[i..];
    AllExtensionLinesAppend(es[..i], es[i..]);
    assert AllExtensionLines(es[i..]) == ExtensionLines(es[i]) + AllExtensionLines(es[i + 1..]);
  }

  // ---------------------------------------------------------------------
  // Hexadecimal (bytes.hex, str.upper; lines 123-129, 202-204)

  function HexDigit(d: nat): (c: char)
    requires d < 16
  {
    if d < 10 then (d + '0' as int) as char else (d - 10 + 'a' as int) as char
  }

  /** `str.upper()` on the characters `bytes.hex` produces. */
  function UpperChar(c: char): char {
    if 'a' <= c <= 'z' then (c as int - 32) as char else c
  }

  function Upper(s: string): (u: string)
    ensures |u| == |s|
    ensures forall i | 0 <= i < |s| :: u[i] == UpperChar(s[i])
  {
    seq(|s|, i requires 0 <= i < |s| => UpperChar(s[i]))
  }

  function HexPair(b: byte): (pair: string)
    ensures |pair| == 2
  {
    [HexDigit(b / 16), HexDigit(b % 16)]
  }

  function HexPairs(bytes: seq<byte>): (pairs: seq<string>)
    ensures |pairs| == |bytes|
    ensures forall i | 0 <= i < |bytes| :: pairs[i] == HexPair(bytes[i])
  {
    seq(|bytes|, i requires 0 <= i < |bytes| => HexPair(bytes[i]))
  }

  /** `bytes.hex()` and `bytes.hex(sep)`: `None` where Python raises "sep must be length 1". */
  function PyHex(bytes: seq<byte>, sep: Option<string>): Option<string> {
    if sep.None? then Some(Text.Join(HexPairs(bytes), ""))
    else if |sep.value| != 1 then None
    else Some(Text.Join(HexPairs(bytes), sep.value))
  }

  /** The digit characters of uppercase hexadecimal. */
  predicate IsUpperHex(c: char) {
    '0' <= c <= '9' || 'A' <= c <= 'F'
  }

  function UpperHexValue(c: char): (d: nat)
    requires IsUpperHex(c)
    ensures d < 16
  {
    if c <= '9' then c as int - '0' as int else c as int - 'A' as int + 10
  }

  lemma UpperHexDigit(d: nat)
    requires d < 16
    ensures IsUpperHex(UpperChar(HexDigit(d))) && UpperHexValue(UpperChar(HexDigit(d))) == d
  {
  }

  /** The uppercase digits of each byte. */
  function UpperPairs(bytes: seq<byte>): (pairs: seq<string>)
    ensures |pairs| == |bytes|
    ensures forall i | 0 <= i < |bytes| :: pairs[i] == Upper(HexPair(bytes[i]))
  {
    seq(|bytes|, i requires 0 <= i < |bytes| => Upper(HexPair(bytes[i])))
  }

  lemma {:induction false} UpperJoin(parts: seq<string>, sep: string)
    requires Upper(sep) == sep
    ensures Upper(Text.Join(parts, sep)) == Text.Join(seq(|parts|, i requires 0 <= i < |parts| => Upper(parts[i])), sep)
    decreases |parts|
  {
    var ups := seq(|parts|, i requires 0 <= i < |parts| => Upper(parts[i]));
    if |parts| >= 2 {
      var tail := parts[1..];
      UpperJoin(tail, sep);
      assert ups[1..] == seq(|tail|, i requires 0 <= i < |tail| => Upper(tail[i]));
      UpperConcat(parts[0], sep);
      UpperConcat(parts[0] + sep, Text.Join(tail, sep));
    } else if |parts| == 1 {
      assert Text.Join(parts, sep) == parts[0];
    } else {
      assert Upper("") == "";
    }
  }

  lemma UpperConcat(a: string, b: string)
    ensures Upper(a + b) == Upper(a) + Upper(b)
  {
  }

  /** The displayed fingerprint: `digest.hex(':').upper()`. */
  function Fingerprint(bytes: seq<byte>): string {
    Upper(PyHex(bytes, Some(":")).value)
  }

  lemma FingerprintPairs(bytes: seq<byte>)
    ensures Fingerprint(bytes) == Text.Join(UpperPairs(bytes), ":")
  {
    UpperJoin(HexPairs(bytes), ":");
    assert seq(|bytes|, i requires 0 <= i < |bytes| => Upper(HexPairs(bytes)[i])) == UpperPairs(bytes);
  }

  /** Pairs of digits and separators alternate: two characters per byte, one between bytes. */
  lemma {:induction false} JoinPairsLength(pairs: seq<string>, sep: string)
    requires |sep| <= 1 && pairs != []
    requires forall i | 0 <= i < |pairs| :: |pairs[i]| == 2
    ensures |Text.Join(pairs, sep)| == 2 * |pairs| + (|pairs| - 1) * |sep|
    decreases |pairs|
  {
    if |pairs| > 1 {
      JoinPairsLength(pairs[1..], sep);
    }
  }

  /** A fingerprint of n >= 1 bytes is 3n - 1 characters long, and empty for no bytes. */
  lemma FingerprintLength(bytes: seq<byte>)
    ensures |Fingerprint(bytes)| == if bytes == [] then 0 else 3 * |bytes| - 1
  {
    FingerprintPairs(bytes);
    if bytes != [] {
      JoinPairsLength(UpperPairs(bytes), ":");
    }
  }

  /** Reads uppercase digit pairs with one separator between them back into bytes. */
  function Unhex(s: string, separated: bool): Option<seq<byte>>
    decreases |s|
  {
    if s == [] then Some([])
    else if |s| < 2 || !IsUpperHex(s[0]) || !IsUpperHex(s[1]) then None
    else
      var b: byte := UpperHexValue(s[0]) * 16 + UpperHexValue(s[1]);
      if |s| == 2 then Some([b])
      else if separated && (|s| == 3 || s[2] != ':') then None
      else
        var rest := if separated then s[3..] else s[2..];
        match Unhex(rest, separated)
        case None => None
        case Some(bs) => Some([b] + bs)
  }

  lemma UpperPairDigits(b: byte)
    ensures var p := Upper(HexPair(b));
      IsUpperHex(p[0]) && IsUpperHex(p[1]) && UpperHexValue(p[0]) * 16 + UpperHexValue(p[1]) == b
  {
    UpperHexDigit(b / 16);
    UpperHexDigit(b % 16);
  }

  lemma {:induction false} UnhexJoin(bytes: seq<byte>, separated: bool)
    ensures Unhex(Text.Join(UpperPairs(bytes), if separated then ":" else ""), separated) == Some(bytes)
    decreases |bytes|
  {
    var sep := if separated then ":" else "";
    var pairs := UpperPairs(bytes);
    var s := Text.Join(pairs, sep);
    if |bytes| == 1 {
      UpperPairDigits(bytes[0]);
      assert s == pairs[0] == Upper(HexPair(bytes[0]));
      assert |s| == 2;
      assert [bytes[0]] == bytes;
    } else if |bytes| > 1 {
      UpperPairDigits(bytes[0]);
      var tail := Text.Join(pairs[1..], sep);
      assert pairs[1..] == UpperPairs(bytes[1..]);
      UnhexJoin(bytes[1..], separated);
      JoinPairsLength(pairs[1..], sep);
      assert s == pairs[0] + sep + tail;
      assert s[..2] == pairs[0];
      assert (if separated then s[3..] else s[2..]) == tail;
      assert [bytes[0]] + bytes[1..] == bytes;
    }
  }

  /** The fingerprint reads back as the digest it shows. */
  lemma FingerprintRoundTrip(bytes: seq<byte>)
    ensures Unhex(Fingerprint(bytes), true) == Some(bytes)
  {
    FingerprintPairs(bytes);
    UnhexJoin(bytes, true);
  }

  // ---------------------------------------------------------------------
  // The thumbprint `main` saves (lines 202-207)

  /** As written: `sha1_fingerprint.hex('')`, which Python rejects for its empty separator. */
  function ThumbprintAsWritten(sha1: seq<byte>): Option<string> {
    match PyHex(sha1, Some(""))
    case None => None
    case Some(h) => Some(Upper(h))
  }

  lemma ThumbprintAsWrittenRaises(sha1: seq<byte>)
    ensures ThumbprintAsWritten(sha1) == None
  {
  }

  /** As intended: `sha1_fingerprint.hex().upper()`, the digits without separators. */
  function Thumbprint(sha1: seq<byte>): string {
    Upper(PyHex(sha1, None).value)
  }

  lemma ThumbprintPairs(sha1: seq<byte>)
    ensures Thumbprint(sha1) == Text.Join(UpperPairs(sha1), "")
  {
    UpperJoin(HexPairs(sha1), "");
    assert seq(|sha1|, i requires 0 <= i < |sha1| => Upper(HexPairs(sha1)[i])) == UpperPairs(sha1);
  }

  lemma {:induction false} JoinedUpperHex(bytes: seq<byte>)
    ensures forall i | 0 <= i < |Text.Join(UpperPairs(bytes), "")| :: IsUpperHex(Text.Join(UpperPairs(bytes), "")[i])
    decreases |bytes|
  {
    var pairs := UpperPairs(bytes);
    if |bytes| >= 1 {
      UpperPairDigits(bytes[0]);
      if |bytes| >= 2 {
        assert pairs[1..] == UpperPairs(bytes[1..]);
        JoinedUpperHex(bytes[1..]);
        assert Text.Join(pairs, "") == pairs[0] + Text.Join(pairs[1..], "");
      }
    }
  }

  /** Two uppercase hexadecimal digits per byte and nothing else: 40 characters for SHA-1. */
  lemma ThumbprintShape(sha1: seq<byte>)
    ensures |Thumbprint(sha1)| == 2 * |sha1|
    ensures forall i | 0 <= i < |Thumbprint(sha1)| :: IsUpperHex(Thumbprint(sha1)[i])
    ensures |sha1| == 20 ==> |Thumbprint(sha1)| == 40
  {
    ThumbprintPairs(sha1);
    JoinedUpperHex(sha1);
    if sha1 != [] {
      JoinPairsLength(UpperPairs(sha1), "");
    }
  }

  /** The thumbprint reads back as the SHA-1 digest. */
  lemma ThumbprintRoundTrip(sha1: seq<byte>)
    ensures Unhex(Thumbprint(sha1), false) == Some(sha1)
  {
    ThumbprintPairs(sha1);
    UnhexJoin(sha1, false);
  }

  // ---------------------------------------------------------------------
  // The report and the script (lines 40-213)

  /** What `print_certificate_info` decides, leaving out attribute, key and algorithm listings. */
  datatype Report = Report(
    selfSigned: bool, validity: Validity,
    sha256Line: string, sha1Line: string, extensionLines: seq<string>)

  function Inspect(c: Certificate, now: int): (r: Report)
    ensures r.selfSigned <==> c.subject == c.issuer
    ensures r.validity == Classify(c.notBefore, c.notAfter, now)
    ensures |r.sha256Line| >= 11 && r.sha256Line[..11] == "  SHA-256: "
    ensures |r.sha1Line| >= 11 && r.sha1Line[..11] == "  SHA-1:   "
    ensures Unhex(r.sha256Line[11..], true) == Some(c.sha256) && Unhex(r.sha1Line[11..], true) == Some(c.sha1)
    ensures forall i | 0 <= i < |c.extensions| ::
      var before := |AllExtensionLines(c.extensions[..i])|;
      && before + |ExtensionLines(c.extensions[i])| <= |r.extensionLines|
      && r.extensionLines[before..before + |ExtensionLines(c.extensions[i])|] == ExtensionLines(c.extensions[i])
  {
    forall i | 0 <= i < |c.extensions| {
      ExtensionsInOrder(c.extensions, i);
    }
    FingerprintRoundTrip(c.sha256);
    FingerprintRoundTrip(c.sha1);
    Report(
      SelfSigned(c), Classify(c.notBefore, c.notAfter, now),
      "  SHA-256: " + Fingerprint(c.sha256), "  SHA-1:   " + Fingerprint(c.sha1),
      AllExtensionLines(c.extensions))
  }

  /** How the script ends: nothing to inspect, a certificate it cannot load, or a report. */
  datatype RunOutcome =
    | NoCertificateFile
    | LoadFailed
    | Inspected(report: Report, thumbprintFile: Option<string>, exitCode: int)

  /**
    `main` as written: with the certificate loaded it prints the report and
    then raises on the thumbprint, so `thumbprint.txt` is never written and
    the process ends with status 1.
  */
  function RunAsWritten(fileExists: bool, loaded: Option<Certificate>, now: int): (out: RunOutcome)
    ensures fileExists && loaded.Some? ==> out.Inspected? && out.thumbprintFile.None? && out.exitCode == 1
  {
    if !fileExists then NoCertificateFile
    else if loaded.None? then LoadFailed
    else
      var c := loaded.value;
      match ThumbprintAsWritten(c.sha1)
      case None => Inspected(Inspect(c, now), None, 1)
      case Some(t) => Inspected(Inspect(c, now), Some(t), 0)
  }

  /** `main` with the thumbprint written as intended: the file holds the SHA-1 digest in hexadecimal. */
  function Run(fileExists: bool, loaded: Option<Certificate>, now: int): (out: RunOutcome)
    ensures !fileExists ==> out == NoCertificateFile
    ensures fileExists && loaded.None? ==> out == LoadFailed
    ensures fileExists && loaded.Some? ==>
      && out.Inspected? && out.exitCode == 0 && out.thumbprintFile.Some?
      && Unhex(out.thumbprintFile.value, false) == Some(loaded.value.sha1)
      && |out.thumbprintFile.value| == 2 * |loaded.value.sha1|
  {
    if !fileExists then NoCertificateFile
    else if loaded.None? then LoadFailed
    else
      var c := loaded.value;
      ThumbprintRoundTrip(c.sha1);
      ThumbprintShape(c.sha1);
      Inspected(Inspect(c, now), Some(Thumbprint(c.sha1)), 0)
  }
}
