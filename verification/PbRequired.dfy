/** When a message is refused for a missing required field: in terms of the tags of the records
    read, for every input. */
module PbRequired {
  import opened InternalKeys
  import opened Coding
  import opened PbSchemas
  import opened PbDecoders

  // What reading all records of the input gives: the structure, the tags met, and what is left.
  datatype Reading = Reading(slots: seq<Slot>, tags: set<nat>, rest: Bytes)

  function Met(number: nat, r: Option<Reading>): Option<Reading> {
    if r.None? then None else Some(r.value.(tags := {number} + r.value.tags))
  }

  // Record after record, up to the end of the message; no field is asked for.
  function ReadRecords(fields: seq<Field>, slots: seq<Slot>, b: Bytes): (r: Option<Reading>)
    requires ShapedAll(fields, slots) && WellFormed(fields)
    decreases |b|
  {
    match DecodeTag(b)
    case Eof(rest) => Some(Reading(slots, {}, rest))
    case Malformed => None
    case Tag(wireType, number, rest) =>
      var place := Find(fields, number);
      if place.None? then
        var skipped := SkipField(wireType, rest);
        if skipped.None? then None else Met(number, ReadRecords(fields, slots, skipped.value))
      else
        var i := place.value;
        var d := DecodeSlot(fields[i], wireType, rest, slots[i]);
        if d.None? then None else
        StoredShaped(fields, slots, i, d.value.0);
        Met(number, ReadRecords(fields, Stored(fields, slots, i, d.value.0), d.value.1))
  }

  // Each of the first 64 required fields has its tag among these.
  ghost predicate Complete(fields: seq<Field>, tags: set<nat>) {
    forall j | 0 <= j < |fields| && fields[j].rule.Required? && |set i | 0 <= i < j && fields[i].rule.Required?| < 64 ::
      fields[j].tag in tags
  }

  // With some of them seen before
  ghost predicate Completes(fields: seq<Field>, seen: set<nat>, tags: set<nat>) {
    forall j | 0 <= j < |fields| && fields[j].rule.Required? && RequiredBefore(fields, j) < 64 ::
      RequiredBefore(fields, j) in seen || fields[j].tag in tags
  }

  lemma FinishedIffSeen(fields: seq<Field>, slots: seq<Slot>, seen: set<nat>, rest: Bytes)
    ensures Finished(fields, slots, seen, rest) == if Completes(fields, seen, {}) then Some((slots, rest)) else None
  {
    if Completes(fields, seen, {}) {
      forall q | 0 <= q < RequiredCount(fields) ensures q in seen {
        var j := RequiredIndex(fields, |fields|, q);
      }
    } else {
      var j :| 0 <= j < |fields| && fields[j].rule.Required? && RequiredBefore(fields, j) < 64
               && RequiredBefore(fields, j) !in seen;
      RequiredGrows(fields, j, |fields|);
    }
  }

  // A field marked as seen counts like its tag met later.
  lemma MarkIsMet(fields: seq<Field>, i: nat, seen: set<nat>, tags: set<nat>)
    requires WellFormed(fields) && i < |fields|
    ensures Completes(fields, Mark(fields, i, seen), tags) <==> Completes(fields, seen, {fields[i].tag} + tags)
  {
    hide RequiredBefore, WellFormedField;
    forall j | 0 <= j < |fields| && j != i
      ensures fields[j].tag != fields[i].tag
      ensures fields[j].rule.Required? && fields[i].rule.Required? ==> RequiredBefore(fields, j) != RequiredBefore(fields, i)
    {
      Apart(fields, i, j);
    }
  }

  lemma Apart(fields: seq<Field>, i: nat, j: nat)
    requires WellFormed(fields) && i < |fields| && j < |fields| && i != j
    ensures fields[j].tag != fields[i].tag
    ensures fields[j].rule.Required? && fields[i].rule.Required? ==> RequiredBefore(fields, j) != RequiredBefore(fields, i)
  {
    RequiredGrows(fields, if i < j then i else j, if i < j then j else i);
  }

  lemma StrangeTag(fields: seq<Field>, number: nat, seen: set<nat>, tags: set<nat>)
    requires Find(fields, number).None?
    ensures Completes(fields, seen, {number} + tags) <==> Completes(fields, seen, tags)
  {
  }

  // What the decoder answers once the records are read
  ghost function Outcome(fields: seq<Field>, seen: set<nat>, r: Option<Reading>): Option<(seq<Slot>, Bytes)> {
    if r.None? || !Completes(fields, seen, r.value.tags) then None else Some((r.value.slots, r.value.rest))
  }

  lemma {:induction false} ReadingDecides(fields: seq<Field>, slots: seq<Slot>, seen: set<nat>, b: Bytes)
    requires ShapedAll(fields, slots) && WellFormed(fields)
    ensures DecodeFields(fields, slots, seen, b) == Outcome(fields, seen, ReadRecords(fields, slots, b))
    decreases |b|
  {
    hide DecodeSlot, Stored, SkipField, Mark, Completes, Finished, Find, ShapedAll, WellFormed, DecodeTag;
    match DecodeTag(b)
    case Eof(rest) => FinishedIffSeen(fields, slots, seen, rest);
    case Malformed =>
    case Tag(wireType, number, rest) =>
      var place := Find(fields, number);
      if place.None? {
        var skipped := SkipField(wireType, rest);
        if skipped.Some? {
          ReadingDecides(fields, slots, seen, skipped.value);
          var r := ReadRecords(fields, slots, skipped.value);
          if r.Some? {
            StrangeTag(fields, number, seen, r.value.tags);
          }
        }
      } else {
        var i := place.value;
        FieldShaped(fields, slots, i);
        var d := DecodeSlot(fields[i], wireType, rest, slots[i]);
        if d.Some? {
          StoredShaped(fields, slots, i, d.value.0);
          var next := Stored(fields, slots, i, d.value.0);
          ReadingDecides(fields, next, Mark(fields, i, seen), d.value.1);
          var r := ReadRecords(fields, next, d.value.1);
          if r.Some? {
            MarkIsMet(fields, i, seen, r.value.tags);
          }
        }
      }
  }

  lemma FieldShaped(fields: seq<Field>, slots: seq<Slot>, i: nat)
    requires ShapedAll(fields, slots) && WellFormed(fields) && i < |fields|
    ensures |slots| == |fields| && ShapedSlot(fields[i], slots[i]) && WellFormedField(fields[i])
  {
  }

  // Decoding succeeds exactly if all records can be read and each of the first 64 required
  // fields is among them; what it gives is what reading gave.
  lemma DecodesIffComplete(fields: seq<Field>, slots: seq<Slot>, b: Bytes)
    requires ShapedAll(fields, slots) && WellFormed(fields)
    ensures var r := ReadRecords(fields, slots, b);
            DecodeFields(fields, slots, {}, b)
            == if r.Some? && Complete(fields, r.value.tags) then Some((r.value.slots, r.value.rest)) else None
  {
    ReadingDecides(fields, slots, {}, b);
    forall j | 0 <= j < |fields|
      ensures RequiredBefore(fields, j) == |set i | 0 <= i < j && fields[i].rule.Required?|
    {
      RequiredBeforeCounts(fields, j);
    }
  }
}
