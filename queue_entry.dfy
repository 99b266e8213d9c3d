/// The queue entry of controller.go: which secret to scan and which event caused it.
module Entries {

  const ReasonAdd: string := "add"
  const ReasonDelete: string := "delete"
  const ReasonUpdate: string := "update"

  /** Splits at the first "::": the inverse of the join in QueueEntry.String for a
      left part that holds no colon. Without a separator, everything is the left part. */
  function Unjoin(s: string): (string, string)
  {
    if |s| < 2 then (s, "")
    else if s[0] == ':' && s[1] == ':' then ("", s[2..])
    else var (left, right) := Unjoin(s[1..]); ([s[0]] + left, right)
  }

  lemma {:induction false} UnjoinJoin(left: string, right: string)
    requires ':' !in left
    ensures Unjoin(left + "::" + right) == (left, right)
  {
    var s := left + "::" + right;
    if left == [] {
      assert s[2..] == right;
    } else {
      assert s[0] == left[0] && s[0] != ':';
      assert s[1..] == left[1..] + "::" + right;
      UnjoinJoin(left[1..], right);
      assert [left[0]] + left[1..] == left;
    }
  }

  lemma ReasonsHaveNoColon()
    ensures ':' !in ReasonAdd && ':' !in ReasonDelete && ':' !in ReasonUpdate
  {
  }

  /** A queue entry; every enqueue allocates a new one, so two entries for the same
      key are still two different items of the queue. */
  class QueueEntry {
    const key: string
    const reason: string

    constructor (key: string, reason: string)
      ensures this.key == key && this.reason == reason
    {
      this.key := key;
      this.reason := reason;
    }

    /** strings.Join([]string{reason, key}, "::"): for a reason without a colon, as
        every reason the controller uses, reason and key can be read back from it. */
    function String(): (s: string)
      ensures |s| == |reason| + 2 + |key|
      ensures ':' !in reason ==> Unjoin(s) == (reason, key)
    {
      var s := reason + "::" + key;
      assert ':' !in reason ==> Unjoin(s) == (reason, key) by {
        if ':' !in reason {
          UnjoinJoin(reason, key);
        }
      }
      s
    }
  }
}
