/** The `path:NNN` anchors both checkers read, as `scripts/check_doc_line_anchors.py` defines them. */
module Anchors {
  import opened Common

  datatype Status = Ok | Missing | External | AmbiguousPath | RangeOrder | OutOfRange
                  | SymbolFar | SymbolMoved | SymbolForeign | Frozen

  /** One anchor: the fields that take part in the program's equality of anchors. */
  datatype Anchor = Anchor(
    doc: string, line: nat, path: string, start: nat, end: Option<nat>,
    target: Option<string>, symbol: Option<string>, continuation: bool, status: Status, detail: string)

  /** An anchor object: the program tells objects apart by identity as well as by value. */
  datatype Cited = Cited(id: nat, anchor: Anchor)

  /** Only anchors with a target and no verdict against them take part in the comparison. */
  predicate IsLive(a: Anchor) {
    a.target.Some? && a.status !in {Frozen, Missing, OutOfRange, RangeOrder, SymbolMoved}
  }
}
