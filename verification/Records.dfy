/**
 Fixed-width records: a byte string cut into consecutive fields, and the fields
 joined again. The source writes such records with `extend_from_slice` and reads
 them with constant slices.
 */
module Records {
  import opened Bytes

  /** The fields one after the other. */
  function Join(parts: seq<seq<byte>>): (s: seq<byte>) {
    if parts == [] then [] else parts[0] + Join(parts[1..])
  }

  function Total(widths: seq<nat>): (n: nat) {
    if widths == [] then 0 else widths[0] + Total(widths[1..])
  }

  /** The consecutive fields of these widths; whatever follows is not looked at. */
  function Fields(s: seq<byte>, widths: seq<nat>): (parts: seq<seq<byte>>)
    requires Total(widths) <= |s|
    ensures |parts| == |widths|
  {
    if widths == [] then [] else [s[..widths[0]]] + Fields(s[widths[0]..], widths[1..])
  }

  ghost predicate HaveWidths(parts: seq<seq<byte>>, widths: seq<nat>) {
    |parts| == |widths| && forall i :: 0 <= i < |parts| ==> |parts[i]| == widths[i]
  }

  lemma {:induction false} JoinLength(parts: seq<seq<byte>>, widths: seq<nat>)
    requires HaveWidths(parts, widths)
    ensures |Join(parts)| == Total(widths)
  {
    if parts != [] {
      JoinLength(parts[1..], widths[1..]);
    }
  }

  /** Reading what was written. */
  lemma {:induction false} FieldsOfJoin(parts: seq<seq<byte>>, widths: seq<nat>)
    requires HaveWidths(parts, widths)
    ensures |Join(parts)| == Total(widths) && Fields(Join(parts), widths) == parts
  {
    JoinLength(parts, widths);
    if parts != [] {
      var s := Join(parts);
      assert s[..widths[0]] == parts[0] && s[widths[0]..] == Join(parts[1..]);
      FieldsOfJoin(parts[1..], widths[1..]);
      assert parts == [parts[0]] + parts[1..];
    }
  }

  /** Writing what was read. */
  lemma {:induction false} JoinOfFields(s: seq<byte>, widths: seq<nat>)
    requires Total(widths) == |s|
    ensures Join(Fields(s, widths)) == s && HaveWidths(Fields(s, widths), widths)
  {
    if widths != [] {
      JoinOfFields(s[widths[0]..], widths[1..]);
      var parts := Fields(s, widths);
      assert parts[1..] == Fields(s[widths[0]..], widths[1..]);
      assert s == s[..widths[0]] + s[widths[0]..];
    }
  }
}
