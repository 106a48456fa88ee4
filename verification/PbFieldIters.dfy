/** The cyclic walk over a field list, keeping count of the required fields passed. */
module PbFieldIters {
  import opened InternalKeys
  import opened PbSchemas
  import opened PbDecoders

  class FieldIter {
    const fields: seq<Field>
    var pos: nat
    var requiredFieldIndex: nat

    ghost predicate Valid()
      reads this
    {
      && (if fields == [] then pos == 0 else pos < |fields|)
      && requiredFieldIndex == RequiredBefore(fields, pos)
    }

    // pb_field_iter_begin
    constructor (fields: seq<Field>)
      ensures Valid() && this.fields == fields && pos == 0
    {
      this.fields := fields;
      pos, requiredFieldIndex := 0, 0;
    }

    // pb_field_iter_next: false on wrapping round to the beginning.
    method Next() returns (more: bool)
      requires Valid()
      modifies this
      ensures Valid()
      ensures more == (old(pos) + 1 < |fields|)
      ensures pos == if more then old(pos) + 1 else 0
    {
      if fields == [] {
        return false;
      }
      var prev := fields[pos];
      pos := pos + 1;
      if pos == |fields| {
        pos, requiredFieldIndex := 0, 0;
        return false;
      }
      if prev.rule.Required? {
        requiredFieldIndex := requiredFieldIndex + 1;
      }
      return true;
    }

    // pb_field_iter_find: starting anywhere, it looks at every field and comes back to where it
    // started if none has the tag.
    method Find(tag: nat) returns (found: bool)
      requires Valid()
      modifies this
      ensures Valid()
      // Without fields the iterator stands on the terminator, whose tag is zero.
      ensures found <==> (exists i | 0 <= i < |fields| :: fields[i].tag == tag) || (fields == [] && tag == 0)
      ensures if found && fields != [] then fields[pos].tag == tag else pos == old(pos)
    {
      var start := pos;
      var n := |fields|;
      if n == 0 {
        return tag == 0;
      }
      ghost var wrapped := false;
      while true
        invariant Valid() && (wrapped ==> pos < start) && (!wrapped ==> pos >= start)
        invariant forall i | start <= i < if wrapped then n else pos :: fields[i].tag != tag
        invariant wrapped ==> forall i | 0 <= i < pos :: fields[i].tag != tag
        decreases !wrapped, n - pos
      {
        if fields[pos].tag == tag {
          return true;
        }
        var more := Next();
        if !more {
          wrapped := true;
        }
        if pos == start {
          return false;
        }
      }
    }

    // The number of required fields, as the end of pb_decode_noinit computes it.
    method CountRequired() returns (count: nat)
      requires Valid()
      modifies this
      ensures Valid() && count == RequiredBefore(fields, |fields|)
    {
      var more := true;
      var last: nat := pos;
      count := requiredFieldIndex;
      while more
        invariant Valid() && (more ==> last <= pos)
        invariant !more ==> last == if fields == [] then 0 else |fields| - 1
        invariant !more ==> count == RequiredBefore(fields, last)
        decreases more, |fields| - pos
      {
        count, last := requiredFieldIndex, pos;
        more := Next();
      }
      if fields != [] && fields[last].rule.Required? {
        count := count + 1;
      }
    }
  }

  // With distinct tags the field found is the field of that tag.
  lemma FoundIs(fields: seq<Field>, i: nat, tag: nat)
    requires WellFormed(fields) && i < |fields| && fields[i].tag == tag
    ensures PbDecoders.Find(fields, tag) == Some(i)
  {
  }
}
