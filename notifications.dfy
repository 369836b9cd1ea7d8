/**
 * The citizen's notification context (`NotificationContext.js`): each poll compares
 * the statuses just fetched with the last known ones, raises at most one "Status
 * Update" notification, and merges the fetched statuses into the stored ones; the
 * history is a bounded newest-first list with read flags. The clock readings that
 * stamp a notification (`uniqId`, `timestamp`) are parameters.
 */
module Notifications {
  import opened Wrappers
  import opened Strings

  datatype FetchedComplaint = FetchedComplaint(id: nat, currentStatus: string)

  datatype Notification = Notification(complaintId: nat, uniqId: string, title: string, message: string,
                                       timestamp: string, complaint: FetchedComplaint, read: bool)

  /** Complaint id to its last known status (`lastStatuses`). */
  type Statuses = map<nat, string>

  const HistoryLimit: nat := 50
  const StatusUpdateTitle := "Status Update"

  /** The readable names of the statuses the toast knows. */
  const StatusLabels: map<string, string> :=
    map["pending" := "Pending", "accepted" := "Accepted", "in_progress" := "In Progress",
        "resolved" := "Resolved", "rejected" := "Rejected"]

  /** A complaint changed when a (non-empty) previous status is known and differs. */
  predicate HasChanged(last: Statuses, c: FetchedComplaint) {
    c.id in last && last[c.id] != "" && last[c.id] != c.currentStatus
  }

  /** `k` is the last position of its complaint id in `cs`. */
  ghost predicate LastWithId(cs: seq<FetchedComplaint>, k: int) {
    0 <= k < |cs| && forall j :: k < j < |cs| ==> cs[j].id != cs[k].id
  }

  /** The `newStatuses` the fetch loop builds: each fetched id with the status of its
      last occurrence. */
  function StatusesOf(cs: seq<FetchedComplaint>): (m: Statuses)
    ensures forall k :: 0 <= k < |cs| ==> cs[k].id in m
    ensures forall k :: LastWithId(cs, k) ==> m[cs[k].id] == cs[k].currentStatus
  {
    if cs == [] then map[]
    else
      var n := |cs| - 1;
      var prev := StatusesOf(cs[..n]);
      assert forall k :: 0 <= k < n ==> cs[..n][k] == cs[k];
      prev[cs[n].id := cs[n].currentStatus]
  }

  /** The ids of the complaints in `cs`. */
  ghost function Ids(cs: seq<FetchedComplaint>): set<nat> {
    set k | 0 <= k < |cs| :: cs[k].id
  }

  /** The new statuses hold exactly the fetched complaints. */
  lemma {:induction false} StatusKeys(cs: seq<FetchedComplaint>)
    ensures StatusesOf(cs).Keys == Ids(cs)
  {
    if cs != [] {
      var n := |cs| - 1;
      var init := cs[..n];
      StatusKeys(init);
      assert StatusesOf(cs) == StatusesOf(init)[cs[n].id := cs[n].currentStatus];
      assert Ids(cs) == Ids(init) + {cs[n].id} by {
        forall x | x in Ids(cs) ensures x in Ids(init) + {cs[n].id} {
          var k :| 0 <= k < |cs| && cs[k].id == x;
          if k < n { assert init[k] == cs[k]; }
        }
        forall x | x in Ids(init) ensures x in Ids(cs) {
          var k :| 0 <= k < n && init[k].id == x;
          assert cs[k] == init[k];
        }
      }
    }
  }

  /** The position of the complaint the fetch loop reports as changed: the last
      changed one in fetch order, or none. */
  function LastChangedIndex(last: Statuses, cs: seq<FetchedComplaint>): (r: Option<nat>)
    ensures r.Some? ==> r.value < |cs| && HasChanged(last, cs[r.value])
    ensures r.Some? ==> forall j :: r.value < j < |cs| ==> !HasChanged(last, cs[j])
    ensures r.None? ==> forall j :: 0 <= j < |cs| ==> !HasChanged(last, cs[j])
  {
    if cs == [] then None
    else
      var n := |cs| - 1;
      if HasChanged(last, cs[n]) then Some(n)
      else
        assert forall k :: 0 <= k < n ==> cs[..n][k] == cs[k];
        LastChangedIndex(last, cs[..n])
  }

  function LastChanged(last: Statuses, cs: seq<FetchedComplaint>): Option<FetchedComplaint> {
    match LastChangedIndex(last, cs)
    case None => None
    case Some(k) => Some(cs[k])
  }

  /** The `forEach` over the fetched complaints: fills the new statuses and keeps the
      last changed complaint. */
  method DiffStatuses(last: Statuses, complaints: seq<FetchedComplaint>)
    returns (newStatuses: Statuses, changedComplaint: Option<FetchedComplaint>)
    ensures newStatuses == StatusesOf(complaints)
    ensures changedComplaint == LastChanged(last, complaints)
  {
    newStatuses := map[];
    changedComplaint := None;
    for i := 0 to |complaints|
      invariant newStatuses == StatusesOf(complaints[..i])
      invariant changedComplaint == LastChanged(last, complaints[..i])
    {
      var c := complaints[i];
      assert complaints[..i + 1][..i] == complaints[..i];
      assert StatusesOf(complaints[..i + 1]) == StatusesOf(complaints[..i])[c.id := c.currentStatus];
      assert LastChanged(last, complaints[..i + 1]) ==
             if HasChanged(last, c) then Some(c) else LastChanged(last, complaints[..i]);
      newStatuses := newStatuses[c.id := c.currentStatus];
      if HasChanged(last, c) {
        changedComplaint := Some(c);
      }
    }
    assert complaints[..|complaints|] == complaints;
  }

  /** The stored statuses after a poll, `{...prev, ...newStatuses}`. */
  function MergeStatuses(prev: Statuses, newStatuses: Statuses): (r: Statuses)
    ensures r.Keys == prev.Keys + newStatuses.Keys
    ensures forall id :: id in newStatuses ==> r[id] == newStatuses[id]
    ensures forall id :: id in prev && id !in newStatuses ==> r[id] == prev[id]
  {
    prev + newStatuses
  }

  /** The status as the toast shows it: its readable name, else the raw status. */
  function ReadableStatus(status: string): (r: string)
    ensures status in StatusLabels ==> r == StatusLabels[status]
    ensures status !in StatusLabels ==> r == status
  {
    if status in StatusLabels then StatusLabels[status] else status
  }

  const MessagePrefix := "Complaint #"
  const MessageInfix := " is now "

  /** The notification raised for changed complaint `c`: unread, titled "Status Update",
      and naming the complaint and its readable status. */
  function NotificationFor(c: FetchedComplaint, uniqId: string, timestamp: string): (n: Notification)
    ensures !n.read && n.title == StatusUpdateTitle
    ensures n.complaintId == c.id && n.complaint == c && n.uniqId == uniqId && n.timestamp == timestamp
    ensures StartsWith(n.message, MessagePrefix)
    ensures n.message == MessagePrefix + NatToString(c.id) + MessageInfix + ReadableStatus(c.currentStatus)
  {
    Notification(c.id, uniqId, StatusUpdateTitle,
                 MessagePrefix + NatToString(c.id) + MessageInfix + ReadableStatus(c.currentStatus),
                 timestamp, c, false)
  }

  /** The digits after "Complaint #" in a message, read back. */
  function MessageId(message: string): nat {
    if StartsWith(message, MessagePrefix) then DecimalValue(Digits(message[|MessagePrefix|..])) else 0
  }

  /** The leading run of decimal digits. */
  function Digits(s: string): (r: string)
    ensures |r| <= |s| && r == s[..|r|]
    ensures forall k :: 0 <= k < |r| ==> '0' <= r[k] <= '9'
    ensures |r| < |s| ==> !('0' <= s[|r|] <= '9')
  {
    if s != [] && '0' <= s[0] <= '9' then [s[0]] + Digits(s[1..]) else []
  }

  /** A notification's message names its complaint: the id can be read back from it. */
  lemma {:induction false} MessageNamesComplaint(c: FetchedComplaint, uniqId: string, timestamp: string)
    ensures MessageId(NotificationFor(c, uniqId, timestamp).message) == c.id
  {
    var message := NotificationFor(c, uniqId, timestamp).message;
    var digits := NatToString(c.id);
    var rest := MessageInfix + ReadableStatus(c.currentStatus);
    assert message[|MessagePrefix|..] == digits + rest;
    DigitsStopAt(digits, rest);
    NatToStringRoundTrip(c.id);
  }

  /** The digit run of `d + rest` is `d` when `d` is all digits and `rest` starts
      with something else. */
  lemma {:induction false} DigitsStopAt(d: string, rest: string)
    requires forall k :: 0 <= k < |d| ==> '0' <= d[k] <= '9'
    requires rest != [] && !('0' <= rest[0] <= '9')
    ensures Digits(d + rest) == d
  {
    if d != [] {
      assert (d + rest)[1..] == d[1..] + rest;
      DigitsStopAt(d[1..], rest);
    } else {
      assert d + rest == rest;
    }
  }

  /** `addToHistory`: the new notification first, then the 50 newest kept. */
  function AddToHistory(history: seq<Notification>, n: Notification): (r: seq<Notification>)
    ensures |r| == if |history| + 1 <= HistoryLimit then |history| + 1 else HistoryLimit
    ensures r[0] == n
    ensures forall k :: 1 <= k < |r| ==> r[k] == history[k - 1]
  {
    Take([n] + history, HistoryLimit)
  }

  /** The newest `limit` of `s`. */
  function Take<T>(s: seq<T>, limit: nat): seq<T> {
    if |s| <= limit then s else s[..limit]
  }

  /** `s` in reverse order. */
  function Reversed<T>(s: seq<T>): (r: seq<T>)
    ensures |r| == |s|
  {
    if s == [] then [] else Reversed(s[1..]) + [s[0]]
  }

  /** The history after adding the notifications of `ns`, oldest first. */
  function AddAll(history: seq<Notification>, ns: seq<Notification>): seq<Notification>
    decreases |ns|
  {
    if ns == [] then history else AddAll(AddToHistory(history, ns[0]), ns[1..])
  }

  /** Adding a run of notifications one by one keeps exactly the 50 newest of them
      all, newest first, wherever the history started. */
  lemma {:induction false} HistoryKeepsNewest(history: seq<Notification>, ns: seq<Notification>)
    requires |history| <= HistoryLimit
    ensures AddAll(history, ns) == Take(Reversed(ns) + history, HistoryLimit)
    decreases |ns|
  {
    if ns == [] {
      assert Reversed(ns) + history == history;
    } else {
      var added := [ns[0]] + history;
      var cut := AddToHistory(history, ns[0]);
      assert AddAll(history, ns) == AddAll(cut, ns[1..]);
      HistoryKeepsNewest(cut, ns[1..]);
      TakeAfterTake(Reversed(ns[1..]), added, HistoryLimit);
      assert Reversed(ns) + history == Reversed(ns[1..]) + added by {
        assert Reversed(ns) == Reversed(ns[1..]) + [ns[0]];
      }
    }
  }

  /** Cutting before prepending more and cutting again is cutting once. */
  lemma TakeAfterTake<T>(front: seq<T>, back: seq<T>, limit: nat)
    ensures Take(front + Take(back, limit), limit) == Take(front + back, limit)
  {
    if |back| > limit {
      var whole := front + back;
      var cut := front + back[..limit];
      assert forall k :: 0 <= k < limit ==> cut[k] == whole[k];
    }
  }

  /** `markAsRead`: the entries with the given `uniqId` become read. */
  function MarkAsRead(history: seq<Notification>, uniqId: string): (r: seq<Notification>)
    ensures |r| == |history|
    ensures forall k :: 0 <= k < |r| ==>
              r[k] == if history[k].uniqId == uniqId then history[k].(read := true) else history[k]
  {
    seq(|history|, k requires 0 <= k < |history| =>
          if history[k].uniqId == uniqId then history[k].(read := true) else history[k])
  }

  /** `markAllAsRead`: every entry becomes read. */
  function MarkAllAsRead(history: seq<Notification>): (r: seq<Notification>)
    ensures |r| == |history|
    ensures forall k :: 0 <= k < |r| ==> r[k] == history[k].(read := true)
  {
    seq(|history|, k requires 0 <= k < |history| => history[k].(read := true))
  }

  /** The number of unread entries. */
  function UnreadCount(history: seq<Notification>): nat {
    if history == [] then 0 else (if history[0].read then 0 else 1) + UnreadCount(history[1..])
  }

  /** Everything is a poll's outcome: the stored statuses, the history and the toast. */
  datatype PollOutcome = PollOutcome(stored: Statuses, history: seq<Notification>, shown: Option<Notification>)

  /** One poll: diff the fetch against `seen`, merge it into `stored`, and when a
      complaint changed, show its notification and add it to the history. */
  function Poll(seen: Statuses, stored: Statuses, history: seq<Notification>,
                fetched: seq<FetchedComplaint>, uniqId: string, timestamp: string): (o: PollOutcome)
    ensures o.stored == MergeStatuses(stored, StatusesOf(fetched))
    ensures LastChanged(seen, fetched).None? ==> o.shown.None? && o.history == history
    ensures LastChanged(seen, fetched).Some? ==>
              && o.shown == Some(NotificationFor(LastChanged(seen, fetched).value, uniqId, timestamp))
              && o.history == AddToHistory(history, o.shown.value)
  {
    var stored' := MergeStatuses(stored, StatusesOf(fetched));
    match LastChanged(seen, fetched)
    case None => PollOutcome(stored', history, None)
    case Some(c) =>
      var n := NotificationFor(c, uniqId, timestamp);
      PollOutcome(stored', AddToHistory(history, n), Some(n))
  }

  /** The poll as the interval runs it: the callback was captured on the first render,
      so the statuses it diffs against are that render's, the empty map. */
  function PollAsWritten(stored: Statuses, history: seq<Notification>,
                         fetched: seq<FetchedComplaint>, uniqId: string, timestamp: string): (o: PollOutcome)
    ensures o.shown.None? && o.history == history
    ensures o.stored == MergeStatuses(stored, StatusesOf(fetched))
  {
    FirstSeenNeverChanged(map[], fetched);
    Poll(map[], stored, history, fetched, uniqId, timestamp)
  }

  /** The poll diffing against the statuses stored so far. */
  function PollCorrected(stored: Statuses, history: seq<Notification>,
                         fetched: seq<FetchedComplaint>, uniqId: string, timestamp: string): (o: PollOutcome)
    ensures o.stored == MergeStatuses(stored, StatusesOf(fetched))
    ensures o.shown.Some? <==> exists k :: 0 <= k < |fetched| && HasChanged(stored, fetched[k])
    ensures o.shown.Some? ==>
              && LastChangedIndex(stored, fetched).Some?
              && o.shown.value == NotificationFor(fetched[LastChangedIndex(stored, fetched).value], uniqId, timestamp)
              && o.history == AddToHistory(history, o.shown.value)
    ensures o.shown.None? ==> o.history == history
  {
    Poll(stored, stored, history, fetched, uniqId, timestamp)
  }

  /** Complaints seen for the first time never count as changed. */
  lemma FirstSeenNeverChanged(last: Statuses, cs: seq<FetchedComplaint>)
    requires forall k :: 0 <= k < |cs| ==> cs[k].id !in last
    ensures LastChanged(last, cs).None?
  {
  }

  /** Complaint 1 was pending and is now accepted: the poll as written stays silent,
      the corrected one announces it. */
  lemma StaleStatusesMissChange()
    ensures var stored := map[1 := "pending"];
            var fetched := [FetchedComplaint(1, "accepted")];
            && PollAsWritten(stored, [], fetched, "u", "t").shown.None?
            && PollCorrected(stored, [], fetched, "u", "t").shown.Some?
            && PollCorrected(stored, [], fetched, "u", "t").shown.value.message == "Complaint #1 is now Accepted"
  {
    var stored := map[1 := "pending"];
    var fetched := [FetchedComplaint(1, "accepted")];
    assert fetched[..0] == [];
    assert LastChangedIndex(stored, fetched) == Some(0);
    var o := PollCorrected(stored, [], fetched, "u", "t");
    assert o.shown == Some(NotificationFor(FetchedComplaint(1, "accepted"), "u", "t"));
    assert NatToString(1) == "1";
    assert ReadableStatus("accepted") == "Accepted";
  }

  /** When the fetch lists each complaint once, polling the same fetch again after a
      corrected poll raises nothing: the stored statuses now agree with it. */
  lemma {:induction false} RepeatPollQuiet(stored: Statuses, history: seq<Notification>,
                                           fetched: seq<FetchedComplaint>, uniqId: string, timestamp: string)
    requires forall i, j :: 0 <= i < j < |fetched| ==> fetched[i].id != fetched[j].id
    ensures var o := PollCorrected(stored, history, fetched, uniqId, timestamp);
            PollCorrected(o.stored, o.history, fetched, uniqId, timestamp).shown.None?
  {
    var o := PollCorrected(stored, history, fetched, uniqId, timestamp);
    forall k | 0 <= k < |fetched|
      ensures !HasChanged(o.stored, fetched[k])
    {
      assert LastWithId(fetched, k);
    }
  }

  /** Marking one entry read twice is marking it once. */
  lemma MarkAsReadIdempotent(history: seq<Notification>, uniqId: string)
    ensures MarkAsRead(MarkAsRead(history, uniqId), uniqId) == MarkAsRead(history, uniqId)
  {
  }

  /** Marking all read after marking one read is marking all read. */
  lemma MarkAllAbsorbsMark(history: seq<Notification>, uniqId: string)
    ensures MarkAllAsRead(MarkAsRead(history, uniqId)) == MarkAllAsRead(history)
  {
  }

  /** After marking all read nothing is unread. */
  lemma {:induction false} MarkAllClearsUnread(history: seq<Notification>)
    ensures UnreadCount(MarkAllAsRead(history)) == 0
  {
    if history != [] {
      MarkAllClearsUnread(history[1..]);
      assert MarkAllAsRead(history)[1..] == MarkAllAsRead(history[1..]);
    }
  }

  /** Marking one entry read lowers the unread count by the number of unread entries
      with that id. */
  lemma {:induction false} MarkAsReadCount(history: seq<Notification>, uniqId: string)
    ensures UnreadCount(MarkAsRead(history, uniqId)) + UnreadWithId(history, uniqId) == UnreadCount(history)
  {
    if history != [] {
      MarkAsReadCount(history[1..], uniqId);
      assert MarkAsRead(history, uniqId)[1..] == MarkAsRead(history[1..], uniqId);
    }
  }

  /** The unread entries carrying `uniqId`. */
  function UnreadWithId(history: seq<Notification>, uniqId: string): nat {
    if history == [] then 0
    else (if !history[0].read && history[0].uniqId == uniqId then 1 else 0) + UnreadWithId(history[1..], uniqId)
  }
}
