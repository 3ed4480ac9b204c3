// Guest ids (crates/pertisk-types/src/lib.rs) and their derived order.
module Ids {
  import opened Prelude

  datatype VmId = Numeric(n: u64) | Legacy(uuid: nat)

  // The derived order: every numeric id sorts before every UUID.
  predicate VmLess(a: VmId, b: VmId) {
    match (a, b)
    case (Numeric(m), Numeric(n)) => m < n
    case (Numeric(_), Legacy(_)) => true
    case (Legacy(_), Numeric(_)) => false
    case (Legacy(u), Legacy(v)) => u < v
  }
}
