/**
 * The build's application version: the `MAJOR.MINOR.PATCH` components and the four values
 * derived from them, the integer version code (also used as the database version), the
 * version name and the snapshot name.
 */
module Versions {
  import opened JavaInt
  import opened Decimal

  const VERSIONS: seq<Int32> := [1, 0, 0]
  const MAJOR_MULTIPLE: Int32 := 1000000
  const MINOR_MULTIPLE: Int32 := 1000
  const SNAPSHOT_SUFFIX: string := "-SNAPSHOT"
  const NOT_THREE_COMPONENTS: string :=
    "Application version must be an array with 3 value for MAJOR.MINOR.PATCH format."

  datatype VersionType = CODE | DATABASE | NAME | SNAPSHOT

  /** What `formatVersion` returns: an `Integer` or a `String`. */
  datatype Formatted = Number(value: Int32) | Text(text: string)

  /** A value, or the `RuntimeException` thrown for a malformed version array. */
  datatype Outcome = Value(formatted: Formatted) | Thrown(message: string)

  /** `major * 1000000 + minor * 1000 + patch` in 32-bit arithmetic. */
  function VersionCode(major: Int32, minor: Int32, patch: Int32): Int32
  {
    Add(Add(Mul(major, MAJOR_MULTIPLE), Mul(minor, MINOR_MULTIPLE)), patch)
  }

  /** `Collectors.joining(separator)`. */
  function Join(parts: seq<string>, separator: string): (r: string)
    ensures |parts| == 1 ==> r == parts[0]
    decreases |parts|
  {
    if |parts| == 0 then ""
    else if |parts| == 1 then parts[0]
    else parts[0] + separator + Join(parts[1..], separator)
  }

  /** Each component in decimal, joined by dots. */
  function VersionName(versions: seq<Int32>): string
  {
    Join(seq(|versions|, i requires 0 <= i < |versions| => IntToString(versions[i])), ".")
  }

  /** `formatVersion(type)` over a given version array. */
  function FormatVersion(versions: seq<Int32>, t: VersionType): (o: Outcome)
    ensures |versions| != 3 <==> o == Thrown(NOT_THREE_COMPONENTS)
    ensures o.Value? && (t == CODE || t == DATABASE) ==>
      o.formatted == Number(VersionCode(versions[0], versions[1], versions[2]))
    ensures o.Value? && t == NAME ==> o.formatted == Text(VersionName(versions))
    ensures o.Value? && t == SNAPSHOT ==> o.formatted == Text(VersionName(versions) + SNAPSHOT_SUFFIX)
  {
    if |versions| != 3 then Thrown(NOT_THREE_COMPONENTS)
    else
      match t
      case CODE => Value(Number(VersionCode(versions[0], versions[1], versions[2])))
      case DATABASE => Value(Number(VersionCode(versions[0], versions[1], versions[2])))
      case NAME => Value(Text(VersionName(versions)))
      case SNAPSHOT => Value(Text(VersionName(versions) + SNAPSHOT_SUFFIX))
  }

  // ---------------------------------------------------------------------------------------------
  // Properties
  // ---------------------------------------------------------------------------------------------

  /** The database version is always the version code, because the two cases share one branch. */
  lemma DatabaseIsCode(versions: seq<Int32>)
    ensures FormatVersion(versions, DATABASE) == FormatVersion(versions, CODE)
  {
  }

  /** The snapshot name is the version name followed by "-SNAPSHOT". */
  lemma SnapshotExtendsName(versions: seq<Int32>)
    requires |versions| == 3
    ensures FormatVersion(versions, SNAPSHOT).formatted.text
         == FormatVersion(versions, NAME).formatted.text + SNAPSHOT_SUFFIX
  {
  }

  /** A three-component name is the three decimal spellings around two dots. */
  lemma NameOfThree(versions: seq<Int32>)
    requires |versions| == 3
    ensures VersionName(versions) == IntToString(versions[0]) + "." + IntToString(versions[1]) + "." + IntToString(versions[2])
  {
    var parts := seq(|versions|, i requires 0 <= i < |versions| => IntToString(versions[i]));
    assert parts[1..][1..] == [parts[2]];
    assert Join(parts[1..], ".") == parts[1] + "." + parts[2];
  }

  /** The version in use: code 1000000, name "1.0.0", snapshot "1.0.0-SNAPSHOT". */
  lemma CurrentVersion()
    ensures FormatVersion(VERSIONS, CODE) == Value(Number(1000000))
    ensures FormatVersion(VERSIONS, DATABASE) == Value(Number(1000000))
    ensures FormatVersion(VERSIONS, NAME) == Value(Text("1.0.0"))
    ensures FormatVersion(VERSIONS, SNAPSHOT) == Value(Text("1.0.0-SNAPSHOT"))
  {
    CurrentCode();
    CurrentName();
    assert VersionName(VERSIONS) + SNAPSHOT_SUFFIX == "1.0.0-SNAPSHOT";
  }

  lemma CurrentCode()
    ensures VersionCode(VERSIONS[0], VERSIONS[1], VERSIONS[2]) == 1000000
  {
    assert Mul(1, MAJOR_MULTIPLE) == 1000000;
    assert Mul(0, MINOR_MULTIPLE) == 0;
  }

  lemma CurrentName()
    ensures VersionName(VERSIONS) == "1.0.0"
  {
    NameOfThree(VERSIONS);
    assert IntToString(1) == "1";
    assert IntToString(0) == "0";
  }

  /** Components whose code neither overflows nor lets one component spill into the next. */
  predicate Encodable(major: int, minor: int, patch: int)
  {
    0 <= major <= 2146 && 0 <= minor < 1000 && 0 <= patch < 1000
  }

  /** The version code of encodable components is exact, and decodes back into them. */
  lemma CodeDecodes(major: Int32, minor: Int32, patch: Int32)
    requires Encodable(major, minor, patch)
    ensures var code := VersionCode(major, minor, patch);
      && code == major * 1000000 + minor * 1000 + patch
      && code / 1000000 == major && (code / 1000) % 1000 == minor && code % 1000 == patch
  {
    assert Mul(major, MAJOR_MULTIPLE) == major * 1000000;
    assert Mul(minor, MINOR_MULTIPLE) == minor * 1000;
    var code := major * 1000000 + minor * 1000 + patch;
    assert code / 1000 == major * 1000 + minor;
  }

  /** Encodable versions keep their order: codes compare as the components do, major first. */
  lemma CodeOrdersVersions(a0: Int32, a1: Int32, a2: Int32, b0: Int32, b1: Int32, b2: Int32)
    requires Encodable(a0, a1, a2) && Encodable(b0, b1, b2)
    ensures VersionCode(a0, a1, a2) < VersionCode(b0, b1, b2) <==>
      a0 < b0 || (a0 == b0 && (a1 < b1 || (a1 == b1 && a2 < b2)))
  {
    CodeDecodes(a0, a1, a2);
    CodeDecodes(b0, b1, b2);
    if a0 < b0 {
      assert a0 * 1000000 + 1000000 <= b0 * 1000000;
    } else if b0 < a0 {
      assert b0 * 1000000 + 1000000 <= a0 * 1000000;
    } else if a1 < b1 {
      assert a1 * 1000 + 1000 <= b1 * 1000;
    } else if b1 < a1 {
      assert b1 * 1000 + 1000 <= a1 * 1000;
    }
  }

  /** Without the bounds two versions can share a code: 1.1000.0 and 2.0.0. */
  lemma MinorSpillsIntoMajor()
    ensures VersionCode(1, 1000, 0) == VersionCode(2, 0, 0) == 2000000
  {
  }

  /** The code wraps around like any Java `int`: major 2148 gives a negative code. */
  lemma CodeWrapsAround()
    ensures VersionCode(2148, 0, 0) == 2148000000 - 0x1_0000_0000
  {
  }

  lemma SplitAtDot(x: string, y: string, x': string, y': string)
    requires '.' !in x && '.' !in x'
    requires x + "." + y == x' + "." + y'
    ensures x == x' && y == y'
  {
    var s := x + "." + y;
    assert s[|x|] == '.' && s[|x'|] == '.';
    assert forall i :: 0 <= i < |x| ==> s[i] == x[i];
    assert forall i :: 0 <= i < |x'| ==> s[i] == x'[i];
    assert forall i :: 0 <= i < |x| ==> x[i] in x;
    assert forall i :: 0 <= i < |x'| ==> x'[i] in x';
    assert |x| == |x'|;
    assert x == s[..|x|] == x';
    assert y == s[|x| + 1..] == y';
  }

  lemma NoDotInDecimal(n: int)
    ensures '.' !in IntToString(n)
  {
    IntToStringAlphabet(n);
  }

  /** A dotted triple splits back into its parts when the first two parts hold no dot. */
  lemma SplitThree(a0: string, a1: string, a2: string, b0: string, b1: string, b2: string)
    requires '.' !in a0 && '.' !in a1 && '.' !in b0 && '.' !in b1
    requires a0 + "." + a1 + "." + a2 == b0 + "." + b1 + "." + b2
    ensures a0 == b0 && a1 == b1 && a2 == b2
  {
    assert a0 + "." + a1 + "." + a2 == a0 + "." + (a1 + "." + a2);
    assert b0 + "." + b1 + "." + b2 == b0 + "." + (b1 + "." + b2);
    SplitAtDot(a0, a1 + "." + a2, b0, b1 + "." + b2);
    SplitAtDot(a1, a2, b1, b2);
  }

  /** Equal three-component names have equal spellings, component by component. */
  lemma NameParts(v: seq<Int32>, w: seq<Int32>)
    requires |v| == 3 && |w| == 3
    requires VersionName(v) == VersionName(w)
    ensures IntToString(v[0]) == IntToString(w[0])
    ensures IntToString(v[1]) == IntToString(w[1])
    ensures IntToString(v[2]) == IntToString(w[2])
  {
    NameOfThree(v);
    NameOfThree(w);
    NoDotInDecimal(v[0]);
    NoDotInDecimal(w[0]);
    NoDotInDecimal(v[1]);
    NoDotInDecimal(w[1]);
    SplitThree(IntToString(v[0]), IntToString(v[1]), IntToString(v[2]),
               IntToString(w[0]), IntToString(w[1]), IntToString(w[2]));
  }

  /** The version name identifies the version: different components give different names. */
  lemma NameIdentifiesVersion(v: seq<Int32>, w: seq<Int32>)
    requires |v| == 3 && |w| == 3
    requires VersionName(v) == VersionName(w)
    ensures v == w
  {
    NameParts(v, w);
    IntToStringInjective(v[0], w[0]);
    IntToStringInjective(v[1], w[1]);
    IntToStringInjective(v[2], w[2]);
  }
}
