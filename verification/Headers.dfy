/** rP4-compiler/rp4c/ipsa_header_manager.h: where the fields of a header lie. */
module Headers {
  import opened Powers
  import opened Bytes
  import opened FieldWrite
  import opened FieldFrames

  /** A field's type in a header definition: `bit<length>`, or a named type, which is reported and skipped. */
  datatype FieldType = BitType(length: nat) | NamedType

  datatype FieldDef = FieldDef(name: string, type': FieldType)

  datatype HeaderField = ValidField | DataField(internalOffset: nat, length: nat)

  function Width(d: FieldDef): nat {
    if d.type'.BitType? then d.type'.length else 0
  }

  /** The bits of the fields in front of field `n`. */
  function OffsetOf(defs: seq<FieldDef>, n: nat): nat
    requires n <= |defs|
  {
    if n == 0 then 0 else OffsetOf(defs, n - 1) + Width(defs[n - 1])
  }

  lemma {:induction false} OffsetsAscend(defs: seq<FieldDef>, m: nat, n: nat)
    requires m < n <= |defs|
    ensures OffsetOf(defs, m) + Width(defs[m]) <= OffsetOf(defs, n)
  {
    if m + 1 < n {
      OffsetsAscend(defs, m, n - 1);
    }
  }

  /** The first field is at the header's first bit, and each begins where the one in front of it ends. */
  lemma {:induction false} NoGaps(defs: seq<FieldDef>, n: nat)
    requires n < |defs|
    ensures OffsetOf(defs, 0) == 0
    ensures OffsetOf(defs, n + 1) ==
            OffsetOf(defs, n) + match defs[n].type' case BitType(length) => length case NamedType => 0
  {
  }

  const ETHERNET := [FieldDef("dst", BitType(48)), FieldDef("src", BitType(48)), FieldDef("type", BitType(16))]

  method LayOutEthernet() returns (header: IpsaHeader)
    ensures header.offset == 112 && header.fields.Keys == {"isValid", "dst", "src", "type"}
    ensures header.fields["dst"] == DataField(0, 48) && header.fields["src"] == DataField(48, 48)
    ensures header.fields["type"] == DataField(96, 16)
  {
    header := new IpsaHeader(ETHERNET, 1);
    EthernetOffsets();
    assert Named(ETHERNET, 0, "dst") && Named(ETHERNET, 1, "src") && Named(ETHERNET, 2, "type");
    forall name | name in header.fields && name != "isValid"
      ensures name == "dst" || name == "src" || name == "type"
    {
      assert FirstBefore(ETHERNET, 3, name);
    }
  }

  lemma {:induction false} EthernetOffsets()
    ensures OffsetOf(ETHERNET, 0) == 0 && OffsetOf(ETHERNET, 1) == 48
    ensures OffsetOf(ETHERNET, 2) == 96 && OffsetOf(ETHERNET, 3) == 112
  {
  }

  /** Definition `i` is the first of a bit type with its name, and no name of the built-in field. */
  ghost predicate Named(defs: seq<FieldDef>, i: nat, name: string) {
    && i < |defs| && defs[i].name == name && defs[i].type'.BitType? && name != "isValid"
    && forall j :: 0 <= j < i ==> defs[j].name != name || defs[j].type'.NamedType?
  }

  /** What the constructor makes of a header definition: the built-in field, and each named field after those
      in front of it, a second field of a name only taking up room. */
  ghost predicate LaidOut(defs: seq<FieldDef>, n: nat, fields: map<string, HeaderField>)
    requires n <= |defs|
  {
    "isValid" in fields && fields["isValid"] == ValidField && Placed(defs, n, fields) && Accounted(defs, n, fields)
  }

  ghost predicate Placed(defs: seq<FieldDef>, n: nat, fields: map<string, HeaderField>)
    requires n <= |defs|
  {
    forall i, name :: 0 <= i < n && Named(defs, i, name) ==>
      name in fields && fields[name] == DataField(OffsetOf(defs, i), Width(defs[i]))
  }

  ghost predicate Accounted(defs: seq<FieldDef>, n: nat, fields: map<string, HeaderField>)
    requires n <= |defs|
  {
    forall name :: name in fields && name != "isValid" ==> FirstBefore(defs, n, name)
  }

  ghost predicate FirstBefore(defs: seq<FieldDef>, n: nat, name: string) {
    exists i :: 0 <= i < n && Named(defs, i, name)
  }

  class IpsaHeader {
    var headerId: nat
    var offset: nat
    var fields: map<string, HeaderField>

    /** Both constructors lay the fields out alike. */
    constructor (defs: seq<FieldDef>, id: nat)
      ensures headerId == id && LaidOut(defs, |defs|, fields) && offset == OffsetOf(defs, |defs|)
    {
      headerId := id;
      fields := map["isValid" := ValidField];
      offset := 0;
      new;
      for n := 0 to |defs|
        invariant headerId == id && LaidOut(defs, n, fields) && offset == OffsetOf(defs, n)
        invariant forall i :: 0 <= i < n && defs[i].type'.BitType? ==> defs[i].name in fields
      {
        var def := defs[n];
        if def.type'.BitType? {
          ghost var before := fields;
          if def.name !in fields {
            fields := fields[def.name := DataField(offset, def.type'.length)];
          }
          InsertKeepsLayout(defs, n, before, fields);
          offset := offset + def.type'.length;
        } else {
          SkipKeepsLayout(defs, n, fields);
        }
      }
    }
  }

  lemma {:induction false} InsertKeepsLayout(defs: seq<FieldDef>, n: nat, before: map<string, HeaderField>,
                                             after: map<string, HeaderField>)
    requires n < |defs| && defs[n].type'.BitType? && LaidOut(defs, n, before)
    requires forall i :: 0 <= i < n && defs[i].type'.BitType? ==> defs[i].name in before
    requires after == if defs[n].name in before then before
                      else before[defs[n].name := DataField(OffsetOf(defs, n), Width(defs[n]))]
    ensures LaidOut(defs, n + 1, after)
  {
    var name := defs[n].name;
    if name in before {
      if name != "isValid" {
        SecondNotNamed(defs, n, name);
      }
    } else {
      FirstNamed(defs, n, before);
    }
    forall other | other in after && other != "isValid"
      ensures FirstBefore(defs, n + 1, other)
    {
      StillBefore(defs, n, other, before);
    }
  }

  lemma {:induction false} SecondNotNamed(defs: seq<FieldDef>, n: nat, name: string)
    requires n < |defs| && FirstBefore(defs, n, name)
    ensures !Named(defs, n, name)
  {
  }

  lemma {:induction false} FirstNamed(defs: seq<FieldDef>, n: nat, before: map<string, HeaderField>)
    requires n < |defs| && defs[n].type'.BitType? && defs[n].name !in before && "isValid" in before
    requires forall i :: 0 <= i < n && defs[i].type'.BitType? ==> defs[i].name in before
    ensures Named(defs, n, defs[n].name)
  {
  }

  lemma {:induction false} StillBefore(defs: seq<FieldDef>, n: nat, name: string, before: map<string, HeaderField>)
    requires n < |defs| && Accounted(defs, n, before) && name != "isValid" && (name in before || Named(defs, n, name))
    ensures FirstBefore(defs, n + 1, name)
  {
    if name in before {
      var i :| 0 <= i < n && Named(defs, i, name);
    }
  }

  lemma {:induction false} SkipKeepsLayout(defs: seq<FieldDef>, n: nat, fields: map<string, HeaderField>)
    requires n < |defs| && defs[n].type'.NamedType? && LaidOut(defs, n, fields)
    ensures LaidOut(defs, n + 1, fields)
  {
    forall other | other in fields && other != "isValid"
      ensures FirstBefore(defs, n + 1, other)
    {
      StillBefore(defs, n, other, fields);
    }
  }

  /** Two fields of a header share no bit, and all lie inside it. */
  lemma {:induction false} FieldsAreDisjoint(defs: seq<FieldDef>, fields: map<string, HeaderField>, a: string,
                                             b: string)
    requires LaidOut(defs, |defs|, fields) && a in fields && b in fields && a != b
    requires fields[a].DataField? && fields[b].DataField?
    ensures Apart(fields[a], fields[b])
    ensures fields[a].internalOffset + fields[a].length <= OffsetOf(defs, |defs|)
  {
    var i :| 0 <= i < |defs| && Named(defs, i, a);
    var j :| 0 <= j < |defs| && Named(defs, j, b);
    if i < j {
      OffsetsAscend(defs, i, j);
    } else {
      OffsetsAscend(defs, j, i);
    }
    OffsetsAscend(defs, i, |defs|);
  }

  ghost predicate Apart(f: HeaderField, g: HeaderField)
    requires f.DataField? && g.DataField?
  {
    f.internalOffset + f.length <= g.internalOffset || g.internalOffset + g.length <= f.internalOffset
  }

  lemma {:induction false} WriteKeepsApart(p: seq<Byte>, p': seq<Byte>, begin: nat, len: nat, v: nat, other: nat,
                                           otherLen: nat)
    requires Written(p, p', begin, len, v) && len >= 1 && v < Pow2(len)
    requires begin + len <= other || other + otherLen <= begin
    ensures FieldValue(p', begin, len) == v && FieldValue(p', other, otherLen) == FieldValue(p, other, otherLen)
  {
    SmallValueFrame(p, p', begin, len, v);
    OutsideFieldKept(p, p', begin, begin + len, other, otherLen);
  }

  /** Writing a value into one field of a header that begins at bit `at` of the packet sets that field and leaves every
      other field of the header as it was, for any value the field can hold. */
  lemma {:induction false} WriteKeepsOtherFields(defs: seq<FieldDef>, fields: map<string, HeaderField>, a: string,
                                                 b: string, at: nat, begin: nat, other: nat, p: seq<Byte>,
                                                 p': seq<Byte>, v: nat)
    requires LaidOut(defs, |defs|, fields) && a in fields && b in fields && a != b
    requires fields[a].DataField? && fields[b].DataField? && fields[a].length >= 1 && v < Pow2(fields[a].length)
    requires begin == at + fields[a].internalOffset && other == at + fields[b].internalOffset
    requires Written(p, p', begin, fields[a].length, v)
    ensures FieldValue(p', begin, fields[a].length) == v
    ensures FieldValue(p', other, fields[b].length) == FieldValue(p, other, fields[b].length)
  {
    FieldsAreDisjoint(defs, fields, a, b);
    assert begin + fields[a].length <= other || other + fields[b].length <= begin;
    WriteKeepsApart(p, p', begin, fields[a].length, v, other, fields[b].length);
  }
}
