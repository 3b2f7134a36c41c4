/** The data element table of ISO 8583-1987 as the parser carries it. */
module FieldTable {
  import opened Option

  /** Exact length, two-digit length prefix, three-digit length prefix. */
  datatype Kind = Fixed | LLVar | LLLVar

  /** `length` is exact for Fixed and a maximum otherwise. */
  datatype FieldDef = FieldDef(kind: Kind, length: nat)

  /** The table itself; a field outside it is unknown. */
  function Def(f: int): (d: Option<FieldDef>)
    ensures d.Some? ==> 1 <= f <= 128 && 1 <= d.value.length <= 999
    ensures d.Some? && d.value.kind.LLVar? ==> d.value.length <= 99
    ensures d.Some? && d.value.kind.Fixed? ==> d.value.length <= 42
  {
    match f
    case 1 => Some(FieldDef(Fixed, 8))
    case 2 => Some(FieldDef(LLVar, 19))
    case 3 => Some(FieldDef(Fixed, 6))
    case 4 => Some(FieldDef(Fixed, 12))
    case 5 => Some(FieldDef(Fixed, 12))
    case 7 => Some(FieldDef(Fixed, 10))
    case 11 => Some(FieldDef(Fixed, 6))
    case 12 => Some(FieldDef(Fixed, 6))
    case 13 => Some(FieldDef(Fixed, 4))
    case 14 => Some(FieldDef(Fixed, 4))
    case 18 => Some(FieldDef(Fixed, 4))
    case 22 => Some(FieldDef(Fixed, 3))
    case 25 => Some(FieldDef(Fixed, 2))
    case 32 => Some(FieldDef(LLVar, 11))
    case 33 => Some(FieldDef(LLVar, 11))
    case 35 => Some(FieldDef(LLVar, 37))
    case 37 => Some(FieldDef(Fixed, 12))
    case 38 => Some(FieldDef(Fixed, 6))
    case 39 => Some(FieldDef(Fixed, 2))
    case 41 => Some(FieldDef(Fixed, 8))
    case 42 => Some(FieldDef(Fixed, 15))
    case 43 => Some(FieldDef(Fixed, 40))
    case 48 => Some(FieldDef(LLLVar, 999))
    case 49 => Some(FieldDef(Fixed, 3))
    case 50 => Some(FieldDef(Fixed, 3))
    case 52 => Some(FieldDef(Fixed, 8))
    case 54 => Some(FieldDef(LLLVar, 120))
    case 55 => Some(FieldDef(LLLVar, 999))
    case 60 => Some(FieldDef(LLLVar, 999))
    case 61 => Some(FieldDef(LLLVar, 999))
    case 62 => Some(FieldDef(LLLVar, 999))
    case 63 => Some(FieldDef(LLLVar, 999))
    case 70 => Some(FieldDef(Fixed, 3))
    case 90 => Some(FieldDef(Fixed, 42))
    case 100 => Some(FieldDef(LLVar, 11))
    case 102 => Some(FieldDef(LLVar, 28))
    case 103 => Some(FieldDef(LLVar, 28))
    case 120 => Some(FieldDef(LLLVar, 999))
    case 121 => Some(FieldDef(LLLVar, 999))
    case 122 => Some(FieldDef(LLLVar, 999))
    case 123 => Some(FieldDef(LLLVar, 999))
    case 128 => Some(FieldDef(Fixed, 8))
    case _ => None
  }

  /** The table the other way round: which fields have each length, kind by kind. */
  lemma FixedFields(f: int)
    ensures Def(f) == Some(FieldDef(Fixed, 2)) <==> f in {25, 39}
    ensures Def(f) == Some(FieldDef(Fixed, 3)) <==> f in {22, 49, 50, 70}
    ensures Def(f) == Some(FieldDef(Fixed, 4)) <==> f in {13, 14, 18}
    ensures Def(f) == Some(FieldDef(Fixed, 6)) <==> f in {3, 11, 12, 38}
    ensures Def(f) == Some(FieldDef(Fixed, 8)) <==> f in {1, 41, 52, 128}
    ensures Def(f) == Some(FieldDef(Fixed, 10)) <==> f == 7
    ensures Def(f) == Some(FieldDef(Fixed, 12)) <==> f in {4, 5, 37}
    ensures Def(f) == Some(FieldDef(Fixed, 15)) <==> f == 42
    ensures Def(f) == Some(FieldDef(Fixed, 40)) <==> f == 43
    ensures Def(f) == Some(FieldDef(Fixed, 42)) <==> f == 90
  {
  }

  lemma VariableFields(f: int)
    ensures Def(f) == Some(FieldDef(LLVar, 11)) <==> f in {32, 33, 100}
    ensures Def(f) == Some(FieldDef(LLVar, 19)) <==> f == 2
    ensures Def(f) == Some(FieldDef(LLVar, 28)) <==> f in {102, 103}
    ensures Def(f) == Some(FieldDef(LLVar, 37)) <==> f == 35
    ensures Def(f) == Some(FieldDef(LLLVar, 120)) <==> f == 54
    ensures Def(f) == Some(FieldDef(LLLVar, 999)) <==> f in {48, 55, 60, 61, 62, 63, 120, 121, 122, 123}
  {
  }

  /** 42 fields are known and no other. */
  lemma KnownFields(f: int)
    ensures Def(f).Some? <==> f in {1, 2, 3, 4, 5, 7, 11, 12, 13, 14, 18, 22, 25, 32, 33, 35, 37, 38, 39, 41, 42, 43,
                                    48, 49, 50, 52, 54, 55, 60, 61, 62, 63, 70, 90, 100, 102, 103,
                                    120, 121, 122, 123, 128}
  {
  }
}
