/** Two-pin SMD footprints and the KiCad footprint name they resolve to.

    The name is `Resistor_SMD:R_<imperial>_<metric>Metric`, where the
    imperial code is the package type's name and the metric code comes from
    a fixed table. As written, the table gives the 0603 package the metric
    code of the 0402 package. `MetricAsWritten` keeps that table, and
    `SmdTwoPin` names its footprint from it, as the source does; `Metric` is
    the corrected table, with the property the written one lacks. */
module Footprints {
  import opened Wrappers
  import opened Traits

  /** `SMDTwoPin.Type`, in declaration order. */
  datatype SmdType = T01005 | T0201 | T0402 | T0603 | T0805 | T1206 | T1210 | T1218 | T2010 | T2512

  /** The enum member's name: an underscore, then the imperial size code. */
  function EnumName(t: SmdType): string
  {
    match t
    case T01005 => "_01005"
    case T0201 => "_0201"
    case T0402 => "_0402"
    case T0603 => "_0603"
    case T0805 => "_0805"
    case T1206 => "_1206"
    case T1210 => "_1210"
    case T1218 => "_1218"
    case T2010 => "_2010"
    case T2512 => "_2512"
  }

  /** `type.name[1:]`: the imperial size code. */
  function Imperial(t: SmdType): (s: string)
    ensures "_" + s == EnumName(t)
  {
    EnumName(t)[1..]
  }

  /** The metric table exactly as the source writes it. */
  function MetricAsWritten(t: SmdType): (s: string)
    ensures |s| == 4
  {
    match t
    case T01005 => "0402"
    case T0201 => "0603"
    case T0402 => "1005"
    case T0603 => "1005"
    case T0805 => "2012"
    case T1206 => "3216"
    case T1210 => "3225"
    case T1218 => "3246"
    case T2010 => "5025"
    case T2512 => "6332"
  }

  /** The metric code of each imperial size: the table above with the 0603
      package given its own code, 1608. */
  function Metric(t: SmdType): (s: string)
    ensures |s| == 4
    ensures t != T0603 ==> s == MetricAsWritten(t)
  {
    match t
    case T01005 => "0402"
    case T0201 => "0603"
    case T0402 => "1005"
    case T0603 => "1608"
    case T0805 => "2012"
    case T1206 => "3216"
    case T1210 => "3225"
    case T1218 => "3246"
    case T2010 => "5025"
    case T2512 => "6332"
  }

  const Prefix: string := "Resistor_SMD:R_"
  const Suffix: string := "Metric"

  /** `get_kicad_footprint` with the table as written. */
  function KicadNameAsWritten(t: SmdType): string
  {
    Prefix + Imperial(t) + "_" + MetricAsWritten(t) + Suffix
  }

  /** `get_kicad_footprint` with the corrected table. */
  function KicadName(t: SmdType): string
  {
    Prefix + Imperial(t) + "_" + Metric(t) + Suffix
  }

  /** The package type an imperial size code names, if any. */
  function FromImperial(s: string): (r: Option<SmdType>)
    ensures r.Some? ==> Imperial(r.value) == s
  {
    if s == "01005" then Some(T01005)
    else if s == "0201" then Some(T0201)
    else if s == "0402" then Some(T0402)
    else if s == "0603" then Some(T0603)
    else if s == "0805" then Some(T0805)
    else if s == "1206" then Some(T1206)
    else if s == "1210" then Some(T1210)
    else if s == "1218" then Some(T1218)
    else if s == "2010" then Some(T2010)
    else if s == "2512" then Some(T2512)
    else None
  }

  /** Reads the package type back from a footprint name: the text between
      the prefix and the `_<4-digit metric>Metric` tail. */
  function Parse(name: string): (r: Option<SmdType>)
  {
    if |name| < |Prefix| + 1 + 4 + |Suffix| then None
    else FromImperial(name[|Prefix|..|name| - (1 + 4 + |Suffix|)])
  }

  lemma ImperialRoundTrip(t: SmdType)
    ensures FromImperial(Imperial(t)) == Some(t)
  {
    match t
    case T01005 => assert Imperial(t) == "01005";
    case T0201 => assert Imperial(t) == "0201";
    case T0402 => assert Imperial(t) == "0402";
    case T0603 => assert Imperial(t) == "0603";
    case T0805 => assert Imperial(t) == "0805";
    case T1206 => assert Imperial(t) == "1206";
    case T1210 => assert Imperial(t) == "1210";
    case T1218 => assert Imperial(t) == "1218";
    case T2010 => assert Imperial(t) == "2010";
    case T2512 => assert Imperial(t) == "2512";
  }

  /** The text between prefix and tail of `a + b + c` is `b`. */
  lemma MiddleOf(a: string, b: string, c: string)
    ensures (a + b + c)[|a|..|a + b + c| - |c|] == b
  {
    assert (a + b + c)[|a|..|a + b + c| - |c|] == (a + b + c)[|a|..|a| + |b|];
  }

  /** A name built from a package type and any 4-character metric code reads
      back to that package type. */
  lemma ParseName(t: SmdType, code: string)
    requires |code| == 4
    ensures Parse(Prefix + Imperial(t) + ("_" + code + Suffix)) == Some(t)
  {
    MiddleOf(Prefix, Imperial(t), "_" + code + Suffix);
    ImperialRoundTrip(t);
  }

  /** Every footprint name reads back to the package type it was made from;
      so no two package types share a footprint. */
  lemma ParseKicadName(t: SmdType)
    ensures Parse(KicadName(t)) == Some(t)
  {
    assert KicadName(t) == Prefix + Imperial(t) + ("_" + Metric(t) + Suffix);
    ParseName(t, Metric(t));
  }

  lemma KicadNameInjective(a: SmdType, b: SmdType)
    ensures KicadName(a) == KicadName(b) ==> a == b
  {
    ParseKicadName(a);
    ParseKicadName(b);
  }

  /** The names of the table as written read back too: the imperial part
      still tells the package types apart, so even 0402 and 0603 get
      different footprint names. */
  lemma ParseKicadNameAsWritten(t: SmdType)
    ensures Parse(KicadNameAsWritten(t)) == Some(t)
  {
    assert KicadNameAsWritten(t) == Prefix + Imperial(t) + ("_" + MetricAsWritten(t) + Suffix);
    ParseName(t, MetricAsWritten(t));
  }

  lemma KicadNameAsWrittenInjective(a: SmdType, b: SmdType)
    ensures KicadNameAsWritten(a) == KicadNameAsWritten(b) ==> a == b
  {
    ParseKicadNameAsWritten(a);
    ParseKicadNameAsWritten(b);
  }

  /** No two package types share a corrected metric code. */
  lemma MetricInjective(a: SmdType, b: SmdType)
    ensures Metric(a) == Metric(b) ==> a == b
  {
  }

  /** As written, the 0402 and 0603 packages share metric code 1005, so the
      0603 package names the footprint `R_0603_1005Metric`. */
  lemma MetricAsWrittenCollides()
    ensures MetricAsWritten(T0402) == MetricAsWritten(T0603)
    ensures KicadNameAsWritten(T0603) == "Resistor_SMD:R_0603_1005Metric"
    ensures KicadName(T0603) == "Resistor_SMD:R_0603_1608Metric"
    ensures KicadNameAsWritten(T0603) != KicadName(T0603)
  {
    assert Imperial(T0603) == "0603";
    assert KicadNameAsWritten(T0603)[21] == '0' && KicadName(T0603)[21] == '6';
  }

  /** A two-pin SMD footprint object with its KiCad footprint trait. */
  class SmdTwoPin {
    const smdType: SmdType
    const traits: TraitStore

    /** `SMDTwoPin(type)`: carries a `has_kicad_footprint` naming the
        footprint of its type, from the table as written. */
    constructor(t: SmdType)
      ensures smdType == t && fresh(traits) && traits.Valid()
      ensures traits.traits == map[HasKicadFootprint := KicadFootprint(KicadNameAsWritten(t))]
    {
      smdType := t;
      traits := new TraitStore();
      new;
      traits.Add(KicadFootprint(KicadNameAsWritten(t)));
    }
  }
}
