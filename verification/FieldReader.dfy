/** The cursor that typed reads of a message's fields advance. */
module FieldReader {
  import opened Wire

  /** The field at a position; past the end there are only empty ones. */
  function At(fields: seq<string>, pos: nat): string {
    if pos < |fields| then fields[pos] else ""
  }

  function IntAt(fields: seq<string>, pos: nat): int64 {
    ParseInt(At(fields, pos))
  }

  function FloatAt(fields: seq<string>, pos: nat): Float {
    FloatIn(At(fields, pos))
  }

  function BoolAt(fields: seq<string>, pos: nat): bool {
    BoolIn(At(fields, pos))
  }

  /** Past the end of a message every field reads as nothing, zero or false. */
  lemma PastTheEnd(fields: seq<string>, pos: nat)
    requires pos >= |fields|
    ensures At(fields, pos) == "" && IntAt(fields, pos) == 0 && FloatAt(fields, pos) == Number("0") && !BoolAt(fields, pos)
  {
  }

  class FieldReader {
    const fields: seq<string>
    var pos: nat
    /** How many fields were asked for; the cursor itself stops at the end of the fields. */
    ghost var at: nat

    ghost predicate Valid()
      reads this
    {
      pos == if at <= |fields| then at else |fields|
    }

    constructor (fields: seq<string>)
      ensures Valid() && this.fields == fields && at == 0
    {
      this.fields, pos, at := fields, 0, 0;
    }

    method HasMore() returns (more: bool)
      requires Valid()
      ensures more <==> at < |fields|
    {
      more := pos < |fields|;
    }

    method ReadString() returns (v: string)
      requires Valid()
      modifies this
      ensures Valid() && at == old(at) + 1 && v == At(fields, old(at))
    {
      at := at + 1;
      if pos >= |fields| {
        return "";
      }
      v := fields[pos];
      pos := pos + 1;
    }

    method ReadInt() returns (v: int64)
      requires Valid()
      modifies this
      ensures Valid() && at == old(at) + 1 && v == IntAt(fields, old(at))
    {
      var s := ReadString();
      if s == "" {
        return 0;
      }
      v := ParseInt(s);
    }

    method ReadFloat() returns (v: Float)
      requires Valid()
      modifies this
      ensures Valid() && at == old(at) + 1 && v == FloatAt(fields, old(at))
    {
      var s := ReadString();
      if s == "" {
        return Number("0");
      }
      if s == "Infinite" || s == "Infinity" {
        return Infinite;
      }
      v := Number(s);
    }

    method ReadBool() returns (v: bool)
      requires Valid()
      modifies this
      ensures Valid() && at == old(at) + 1 && v == BoolAt(fields, old(at))
    {
      var s := ReadString();
      v := s == "1" || s == "true";
    }

    method ReadIntList(n: nat) returns (list: seq<int64>)
      requires Valid()
      modifies this
      ensures Valid() && at == old(at) + n
      ensures |list| == n && forall i :: 0 <= i < n ==> list[i] == IntAt(fields, old(at) + i)
    {
      list := [];
      for i := 0 to n
        invariant Valid() && at == old(at) + i
        invariant |list| == i && forall j :: 0 <= j < i ==> list[j] == IntAt(fields, old(at) + j)
      {
        var v := ReadInt();
        list := list + [v];
      }
    }

    method Skip(n: nat)
      requires Valid()
      modifies this
      ensures Valid() && at == old(at) + n
    {
      at := at + n;
      pos := pos + n;
      if pos > |fields| {
        pos := |fields|;
      }
    }
  }
}
