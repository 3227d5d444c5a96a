/** Work rows and reads of a bead store. */
module Beads {
  import opened Text

  datatype Bead = Bead(id: string, issueType: string, status: string, assignee: string, meta: map<string, string>, ephemeral: bool, noHistory: bool)
  {
    // Metadata is read through TrimSpace; an absent key reads as "".
    function Meta(key: string): string {
      if key in meta then Trim(meta[key]) else ""
    }
  }

  // Errors as Go's errors.Is and errors.As see them: wrappers around causes.
  datatype Err =
    | Failed(what: string)
    | CacheUnavailable
    | PartialResult(cause: Err)
    | Wrapped(inner: Err)
    | Joined(left: Err, right: Err)
  {
    predicate IsPartial() {
      match this
      case Failed(_) => false
      case CacheUnavailable => false
      case PartialResult(_) => true
      case Wrapped(e) => e.IsPartial()
      case Joined(a, b) => a.IsPartial() || b.IsPartial()
    }

    predicate IsCacheUnavailable() {
      match this
      case Failed(_) => false
      case CacheUnavailable => true
      case PartialResult(e) => e.IsCacheUnavailable()
      case Wrapped(e) => e.IsCacheUnavailable()
      case Joined(a, b) => a.IsCacheUnavailable() || b.IsCacheUnavailable()
    }
  }

  // What a read returns: rows, possibly with an error beside them.
  datatype Read = Read(rows: seq<Bead>, err: Option<Err>)
  {
    // A read that failed outright tells nothing, whatever rows came with it.
    function Usable(): seq<Bead> {
      if err.Some? && !err.value.IsPartial() then [] else rows
    }
  }

  function Join(a: Option<Err>, b: Option<Err>): Option<Err> {
    match (a, b)
    case (None, None) => None
    case (Some(e), None) => Some(Wrapped(e))
    case (None, Some(e)) => Some(Wrapped(e))
    case (Some(e), Some(f)) => Some(Joined(e, f))
  }
}
