/**
 * The table rules of the complaint controller (`complaintController.js`): status
 * updates, upvotes, reports and their review status, and creating and deleting
 * categories. The Sequelize tables are fields of one class; ids are positive
 * (auto-increment), so a request id of 0 stands for an absent one, and an absent
 * or empty request string is `""`.
 */
module Complaints {
  import opened Wrappers
  import opened Http
  import opened Strings

  datatype Complaint = Complaint(citizenUid: string, categoryId: nat, currentStatus: string,
                                 upvotes: nat, statusNotes: Option<string>)

  datatype Report = Report(complaintId: nat, reportedBy: string, reason: string,
                           description: string, status: string)

  datatype Category = Category(name: string, description: string)

  /** The statuses `updateComplaintStatus` accepts. */
  const ValidStatuses: seq<string> :=
    ["pending", "accepted", "in_progress", "resolved", "closed", "rejected", "appealed", "completed"]

  /** The values the `currentStatus` column (an enum) can hold; `closed` is not one. */
  const ComplaintStatusEnum: seq<string> :=
    ["pending", "accepted", "in_progress", "resolved", "appealed", "completed", "rejected"]

  /** The reasons a report may give. */
  const ValidReasons: seq<string> :=
    [ "harassment_threats", "hate_speech_discrimination", "nudity_sexual_content", "spam_scams",
      "fake_information_misinformation", "self_harm_suicide", "violence_graphic_content",
      "intellectual_property", "impersonation_fake_accounts", "child_safety", "other_violations" ]

  /** The statuses a report may be given. */
  const ReportStatuses: seq<string> := ["pending", "reviewed", "resolved", "dismissed"]

  const InvalidStatusMessage :=
    "Invalid status. Must be one of: pending, accepted, in_progress, resolved, closed, rejected, appealed, completed"
  const InvalidReasonMessage :=
    "Invalid reason. Must be one of: harassment_threats, hate_speech_discrimination, nudity_sexual_content, "
    + "spam_scams, fake_information_misinformation, self_harm_suicide, violence_graphic_content, "
    + "intellectual_property, impersonation_fake_accounts, child_safety, other_violations"
  const InvalidReportStatusMessage := "Invalid status. Must be one of: pending, reviewed, resolved, dismissed"

  /** The complaint after a status update: the new status, and the new notes unless
      they are empty, in which case the old notes stay. */
  function WithStatus(c: Complaint, status: string, notes: string): (u: Complaint)
    ensures u.currentStatus == status
    ensures notes == "" ==> u.statusNotes == c.statusNotes
    ensures notes != "" ==> u.statusNotes == Some(notes)
    ensures u.(currentStatus := c.currentStatus, statusNotes := c.statusNotes) == c
  {
    c.(currentStatus := status, statusNotes := if notes != "" then Some(notes) else c.statusNotes)
  }

  /** The report's complaint id: the body's, else the route's; then the required
      fields and the reason allow-list. `Ok` holds the complaint id to use. */
  function CheckReportRequest(bodyComplaintId: nat, routeId: nat, reportedBy: string, reason: string): (r: Reply<nat>)
    ensures r.Ok? <==> (bodyComplaintId != 0 || routeId != 0) && reportedBy != "" && reason in ValidReasons
    ensures r.Ok? ==> r.value == (if bodyComplaintId != 0 then bodyComplaintId else routeId) && r.value != 0
    ensures r == Err(400, "Missing required fields: complaintId, reportedBy, reason") <==>
              (bodyComplaintId == 0 && routeId == 0) || reportedBy == "" || reason == ""
    ensures r == Err(400, InvalidReasonMessage) <==>
              (bodyComplaintId != 0 || routeId != 0) && reportedBy != "" && reason != "" && reason !in ValidReasons
  {
    var complaintId := if bodyComplaintId != 0 then bodyComplaintId else routeId;
    if complaintId == 0 || reportedBy == "" || reason == "" then
      Reply<nat>.Err(400, "Missing required fields: complaintId, reportedBy, reason")
    else if reason !in ValidReasons then Reply<nat>.Err(400, InvalidReasonMessage)
    else Ok(complaintId)
  }

  /** The name a new category is stored under: the trimmed name, `None` when nothing
      is left of it. What is stored is never padded and a stored name maps to itself. */
  function CategoryName(name: string): (r: Option<string>)
    ensures r.None? <==> forall k :: 0 <= k < |name| ==> IsJsSpace(name[k])
    ensures r.Some? ==> r.value != [] && !IsJsSpace(r.value[0]) && !IsJsSpace(r.value[|r.value| - 1])
    ensures r.Some? ==> StripsTo(name, r.value)
  {
    var t := Trim(name);
    TrimEmptyIff(name);
    if t == [] then None else Some(t)
  }

  /** A stored category name is its own normal form. */
  lemma CategoryNameIdempotent(name: string)
    requires CategoryName(name).Some?
    ensures CategoryName(CategoryName(name).value) == CategoryName(name)
  {
    TrimIdempotent(name);
  }

  /** Some category already has the name. */
  predicate NameTaken(categories: map<nat, Category>, name: string) {
    exists k :: k in categories && categories[k].name == name
  }

  /** The complaint, upvote, report, category and department-link tables. */
  class ComplaintStore {
    var complaints: map<nat, Complaint>
    /** The `Upvotes` rows: (citizenUid, complaintId), the table's primary key. */
    var upvoteRows: set<(string, nat)>
    var reports: map<nat, Report>
    var nextReportId: nat
    var categories: map<nat, Category>
    var nextCategoryId: nat
    /** The `AuthorityCompanyCategory` rows: (authorityCompanyId, categoryId). */
    var companyCategoryLinks: set<(nat, nat)>

    /** What the database guarantees: ids are positive and below their sequence's
        next value, and one reporter reports a complaint at most once (a unique index). */
    ghost predicate Valid()
      reads this
    {
      && 0 < nextReportId && 0 < nextCategoryId
      && (forall id :: id in reports ==> 0 < id < nextReportId)
      && (forall id :: id in categories ==> 0 < id < nextCategoryId)
      && (forall a, b :: (a in reports && b in reports && reports[a].complaintId == reports[b].complaintId
                          && reports[a].reportedBy == reports[b].reportedBy) ==> a == b)
    }

    /** The citizens who upvoted complaint `id`. */
    ghost function Voters(id: nat): set<string>
      reads this
    {
      set row | row in upvoteRows && row.1 == id :: row.0
    }

    /** Each complaint's counter equals its number of upvote rows. */
    ghost predicate UpvotesCounted()
      reads this
    {
      forall id :: id in complaints ==> complaints[id].upvotes == |Voters(id)|
    }

    /** No two categories share a name. */
    ghost predicate CategoryNamesUnique()
      reads this
    {
      forall a, b :: a in categories && b in categories && categories[a].name == categories[b].name ==> a == b
    }

    constructor ()
      ensures Valid() && UpvotesCounted() && CategoryNamesUnique()
      ensures complaints == map[] && upvoteRows == {} && reports == map[] && categories == map[]
      ensures companyCategoryLinks == {}
    {
      complaints, upvoteRows, reports, categories := map[], {}, map[], map[];
      nextReportId, nextCategoryId := 1, 1;
      companyCategoryLinks := {};
    }

    /** `updateComplaintStatus`. A status off the allow-list is refused with 400;
        `closed` passes the allow-list, but the column rejects it and the handler
        answers 500. Only the target complaint changes, and only on success. */
    method UpdateComplaintStatus(id: nat, currentStatus: string, statusNotes: string) returns (reply: Reply<Complaint>)
      requires Valid()
      modifies this`complaints
      ensures Valid()
      ensures currentStatus !in ValidStatuses ==> reply == Err(400, InvalidStatusMessage)
      ensures currentStatus in ValidStatuses && id !in old(complaints) ==> reply == Err(404, "Complaint not found.")
      ensures currentStatus in ValidStatuses && id in old(complaints) && currentStatus !in ComplaintStatusEnum ==>
                reply == Err(500, "Server error while updating complaint status.")
      ensures reply.Err? ==> complaints == old(complaints)
      ensures reply.Ok? <==> id in old(complaints) && currentStatus in ValidStatuses && currentStatus in ComplaintStatusEnum
      ensures reply.Ok? ==> reply.value == WithStatus(old(complaints)[id], currentStatus, statusNotes)
                             && complaints == old(complaints)[id := reply.value]
    {
      if currentStatus !in ValidStatuses {
        return Err(400, InvalidStatusMessage);
      }
      if id !in complaints {
        return Err(404, "Complaint not found.");
      }
      if currentStatus !in ComplaintStatusEnum {
        return Err(500, "Server error while updating complaint status.");
      }
      var updated := WithStatus(complaints[id], currentStatus, statusNotes);
      complaints := complaints[id := updated];
      reply := Ok(updated);
    }

    /** `upvoteComplaint`: at most one upvote per citizen and complaint; a new one adds
        exactly one row and one to the counter, and keeps counters equal to row counts. */
    method UpvoteComplaint(id: nat, citizenUid: string) returns (reply: Reply<nat>)
      requires Valid()
      modifies this`complaints, this`upvoteRows
      ensures Valid()
      ensures citizenUid == "" ==> reply == Err(400, "Missing citizenUid in request body.")
      ensures citizenUid != "" && id !in old(complaints) ==> reply == Err(404, "Complaint not found.")
      ensures citizenUid != "" && id in old(complaints) && (citizenUid, id) in old(upvoteRows) ==>
                reply == Err(400, "You have already upvoted this complaint.")
      ensures reply.Err? ==> complaints == old(complaints) && upvoteRows == old(upvoteRows)
      ensures reply.Ok? <==> citizenUid != "" && id in old(complaints) && (citizenUid, id) !in old(upvoteRows)
      ensures reply.Ok? ==>
                && upvoteRows == old(upvoteRows) + {(citizenUid, id)}
                && reply.value == old(complaints)[id].upvotes + 1
                && complaints == old(complaints)[id := old(complaints)[id].(upvotes := reply.value)]
      ensures old(UpvotesCounted()) ==> UpvotesCounted()
    {
      if citizenUid == "" {
        return Err(400, "Missing citizenUid in request body.");
      }
      if id !in complaints {
        return Err(404, "Complaint not found.");
      }
      if (citizenUid, id) in upvoteRows {
        return Err(400, "You have already upvoted this complaint.");
      }
      ghost var before := Voters(id);
      ghost var counted := UpvotesCounted();
      ghost var oldRows := upvoteRows;
      upvoteRows := upvoteRows + {(citizenUid, id)};
      var c := complaints[id];
      complaints := complaints[id := c.(upvotes := c.upvotes + 1)];
      reply := Ok(c.upvotes + 1);
      assert Voters(id) == before + {citizenUid};
      assert citizenUid !in before;
      forall other | other != id
        ensures Voters(other) == set row | row in oldRows && row.1 == other :: row.0
      {
      }
    }

    /** `reportComplaint`: the request checks, then the complaint must exist and the
        reporter must not have reported it already; a new report is stored as
        `pending` under a fresh id (status 201). */
    method ReportComplaint(bodyComplaintId: nat, routeId: nat, reportedBy: string, reason: string, description: string)
      returns (reply: Reply<nat>)
      requires Valid()
      modifies this`reports, this`nextReportId
      ensures Valid()
      ensures CheckReportRequest(bodyComplaintId, routeId, reportedBy, reason).Err? ==>
                reply == CheckReportRequest(bodyComplaintId, routeId, reportedBy, reason)
      ensures CheckReportRequest(bodyComplaintId, routeId, reportedBy, reason).Ok? ==>
                var cid := CheckReportRequest(bodyComplaintId, routeId, reportedBy, reason).value;
                && (cid !in complaints ==> reply == Err(404, "Complaint not found"))
                && ((cid in complaints && exists k :: k in old(reports) && old(reports)[k].complaintId == cid
                                                        && old(reports)[k].reportedBy == reportedBy)
                      ==> reply == Err(400, "You have already reported this complaint"))
                && ((cid in complaints && !(exists k :: k in old(reports) && old(reports)[k].complaintId == cid
                                                        && old(reports)[k].reportedBy == reportedBy))
                      ==> reply.Ok?)
                && (reply.Ok? ==> reply.value == old(nextReportId) && nextReportId == old(nextReportId) + 1
                                  && reports == old(reports)[reply.value := Report(cid, reportedBy, reason, description, "pending")])
      ensures reply.Err? ==> reports == old(reports) && nextReportId == old(nextReportId)
    {
      var check := CheckReportRequest(bodyComplaintId, routeId, reportedBy, reason);
      if check.Err? {
        return check;
      }
      var complaintId := check.value;
      if complaintId !in complaints {
        return Err(404, "Complaint not found");
      }
      if exists k :: k in reports && reports[k].complaintId == complaintId && reports[k].reportedBy == reportedBy {
        return Err(400, "You have already reported this complaint");
      }
      var id := nextReportId;
      reports := reports[id := Report(complaintId, reportedBy, reason, description, "pending")];
      nextReportId := nextReportId + 1;
      reply := Ok(id);
    }

    /** `updateReportStatus`. A status is checked only when present and non-empty; an
        absent status leaves the report as it is (Sequelize drops undefined fields),
        and an empty one is refused by the column's enum (500). */
    method UpdateReportStatus(id: nat, status: Option<string>) returns (reply: Reply<Report>)
      requires Valid()
      modifies this`reports
      ensures Valid()
      ensures status.Some? && status.value != "" && status.value !in ReportStatuses ==>
                reply == Err(400, InvalidReportStatusMessage)
      ensures (status.None? || status.value == "" || status.value in ReportStatuses) && id !in old(reports) ==>
                reply == Err(404, "Report not found")
      ensures id in old(reports) && status == Some("") ==>
                reply == Err(500, "Server error while updating report status.")
      ensures id in old(reports) && status.None? ==> reply == Ok(old(reports)[id])
      ensures reply.Err? || status.None? ==> reports == old(reports)
      ensures id in old(reports) && status.Some? && status.value in ReportStatuses ==> reply.Ok?
      ensures reply.Ok? && status.Some? ==>
                && status.value in ReportStatuses
                && reply.value == old(reports)[id].(status := status.value)
                && reports == old(reports)[id := reply.value]
    {
      if status.Some? && status.value != "" && status.value !in ReportStatuses {
        return Err(400, InvalidReportStatusMessage);
      }
      if id !in reports {
        return Err(404, "Report not found");
      }
      match status {
        case None =>
          reply := Ok(reports[id]);
        case Some(s) =>
          if s == "" {
            return Err(500, "Server error while updating report status.");
          }
          var updated := reports[id].(status := s);
          reports := reports[id := updated];
          reply := Ok(updated);
      }
    }

    /** `createCategory`: the trimmed name, refused when empty (400) or already taken
        (409); otherwise a new category under a fresh id (status 201). */
    method CreateCategory(name: string, description: string) returns (reply: Reply<nat>)
      requires Valid()
      modifies this`categories, this`nextCategoryId
      ensures Valid()
      ensures CategoryName(name).None? ==> reply == Err(400, "Category name is required")
      ensures CategoryName(name).Some? && NameTaken(old(categories), CategoryName(name).value) ==>
                reply == Err(409, "Category already exists")
      ensures reply.Ok? <==> CategoryName(name).Some? && !NameTaken(old(categories), CategoryName(name).value)
      ensures reply.Err? ==> categories == old(categories) && nextCategoryId == old(nextCategoryId)
      ensures reply.Ok? ==>
                && CategoryName(name).Some?
                && reply.value == old(nextCategoryId) && nextCategoryId == old(nextCategoryId) + 1
                && categories == old(categories)[reply.value := Category(CategoryName(name).value, description)]
      ensures old(CategoryNamesUnique()) ==> CategoryNamesUnique()
    {
      var trimmed := CategoryName(name);
      if trimmed.None? {
        return Err(400, "Category name is required");
      }
      if NameTaken(categories, trimmed.value) {
        return Err(409, "Category already exists");
      }
      var id := nextCategoryId;
      assert id !in categories;
      categories := categories[id := Category(trimmed.value, description)];
      nextCategoryId := nextCategoryId + 1;
      reply := Ok(id);
    }

    /** The complaints filed under category `id`. */
    function ComplaintsUsing(id: nat): (r: set<nat>)
      reads this
      ensures r <= complaints.Keys
      ensures forall k :: k in r ==> complaints[k].categoryId == id
      ensures forall k :: k in complaints && complaints[k].categoryId == id ==> k in r
    {
      set k | k in complaints && complaints[k].categoryId == id
    }

    /** `deleteCategory`: refused while any complaint uses the category; otherwise its
        department links are removed (even when the category does not exist, which
        is then a 404), and the category with them. */
    method DeleteCategory(id: nat) returns (reply: Reply<()>)
      requires Valid()
      modifies this`categories, this`companyCategoryLinks
      ensures Valid()
      ensures |ComplaintsUsing(id)| > 0 ==>
                && reply == Err(400, "Cannot delete category - " + NatToString(|ComplaintsUsing(id)|) + " complaint(s) are using it")
                && categories == old(categories) && companyCategoryLinks == old(companyCategoryLinks)
      ensures |ComplaintsUsing(id)| == 0 ==>
                && companyCategoryLinks == set link | link in old(companyCategoryLinks) && link.1 != id
                && (id !in old(categories) ==> reply == Err(404, "Category not found") && categories == old(categories))
                && (id in old(categories) ==> reply == Ok(()) && categories == old(categories) - {id})
      ensures old(CategoryNamesUnique()) ==> CategoryNamesUnique()
    {
      var complaintCount := |ComplaintsUsing(id)|;
      if complaintCount > 0 {
        return Err(400, "Cannot delete category - " + NatToString(complaintCount) + " complaint(s) are using it");
      }
      companyCategoryLinks := set link | link in companyCategoryLinks && link.1 != id;
      if id !in categories {
        return Err(404, "Category not found");
      }
      categories := categories - {id};
      reply := Ok(());
    }
  }
}
