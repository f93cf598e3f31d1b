/** What the gap analyser reports. */
module Gaps {
  import opened Oas

  /** One unused request field. */
  datatype Member = Member(field: string, pointer: string, xState: string)

  /** A subtree treated as covered because the walk cannot follow it. */
  datatype SkippedShape = SkippedShape(resource: string, pointer: string, shape: string)

  /** The unused fields beneath one top-level request field. */
  datatype PropGap = PropGap(name: string, ref: SchemaRef, required: bool, members: seq<Member>, query: bool)

  /** The unused fields beneath one top-level request field of a resource, over all its operations. */
  datatype Group = Group(key: string, resource: string, field: string, pointer: string, fingerprint: string,
      members: seq<Member>, query: bool)
}
