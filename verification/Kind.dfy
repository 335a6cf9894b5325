/** The kind of a history entry and its tag (crates/ft-history/src/kind.rs). */
module Kind {
  import opened Wrappers
  import opened Text

  datatype HistoryEntryKind =
    | Create | Update | TrustTransition | Close | Reopen | Supersede | Deprecate | Archive | Redact
  {
    function AsTag(): string {
      match this
      case Create => "create"
      case Update => "update"
      case TrustTransition => "trust-transition"
      case Close => "close"
      case Reopen => "reopen"
      case Supersede => "supersede"
      case Deprecate => "deprecate"
      case Archive => "archive"
      case Redact => "redact"
    }

    /** Only an update may be squashed away. */
    predicate IsAuditCritical() {
      !Update?
    }
  }

  function FromTag(tag: string): Option<HistoryEntryKind> {
    if tag == "create" then Some(Create)
    else if tag == "update" then Some(Update)
    else if tag == "trust-transition" then Some(TrustTransition)
    else if tag == "close" then Some(Close)
    else if tag == "reopen" then Some(Reopen)
    else if tag == "supersede" then Some(Supersede)
    else if tag == "deprecate" then Some(Deprecate)
    else if tag == "archive" then Some(Archive)
    else if tag == "redact" then Some(Redact)
    else None
  }

  /** Reading a tag inverts writing it, and only the written tags are read. */
  lemma TagRoundTrip(tag: string, k: HistoryEntryKind)
    ensures FromTag(tag) == Some(k) <==> tag == k.AsTag()
  {
  }

  /** Tags have no colon and need no trimming. */
  lemma TagIsPlain(k: HistoryEntryKind)
    ensures ':' !in k.AsTag() && Trim(k.AsTag()) == k.AsTag()
  {
    TrimIsIdentity(k.AsTag());
  }
}
