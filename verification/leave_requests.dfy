/** The student's leave-request page (`LeaveRequestsComponent`): the list
    of requests and the pure updates the page applies to it. Each handler
    is a function from the old page state to the new one. The page's
    time-outs, form controls and messages cleared after a delay are not
    modelled; form validity and the submission time are parameters. */
module LeaveRequests {
  import opened Common
  import opened Entities
  import Seqs

  /** A leave request as the page holds it. */
  datatype LeaveRequest = LeaveRequest(
    id: int,
    courseName: string,
    courseCode: string,
    fromDate: string,
    toDate: string,
    reason: string,
    proofDocument: Option<string>,
    status: LeaveStatus,
    requestedAt: string,
    processedAt: Option<string>,
    processedBy: Option<string>,
    remarks: Option<string>)

  /** The state of the page that its handlers change. */
  datatype Page = Page(
    requests: seq<LeaveRequest>,
    showLeaveForm: bool,
    isSubmitting: bool,
    showConfirmation: bool,
    requestToDelete: Option<LeaveRequest>,
    successMessage: string)

  /** A course the form can refer to. */
  datatype CatalogCourse = CatalogCourse(id: int, name: string, code: string)

  /** The values of a submitted form; the course id is already a number. */
  datatype LeaveForm = LeaveForm(courseId: int, fromDate: string, toDate: string, reason: string, proofDocument: Option<string>)

  const SubmittedMessage := "Leave request submitted successfully"
  const DeletedMessage := "Leave request deleted successfully"

  /** The status text the page compares against. */
  function StatusName(s: LeaveStatus): string
  {
    match s
    case PENDING => "PENDING"
    case APPROVED => "APPROVED"
    case REJECTED => "REJECTED"
  }

  // ---------------------------------------------------------------------
  // Queries
  // ---------------------------------------------------------------------

  /** `canDeleteRequest`: only a request still pending may be withdrawn. */
  predicate CanDeleteRequest(r: LeaveRequest)
    ensures CanDeleteRequest(r) <==> r.status == PENDING
  {
    StatusName(r.status) == "PENDING"
  }

  predicate IsProcessed(r: LeaveRequest)
  {
    !CanDeleteRequest(r)
  }

  /** `getPendingRequests`: the pending requests in list order. */
  function PendingRequests(requests: seq<LeaveRequest>): (r: seq<LeaveRequest>)
    ensures forall x :: x in r <==> x in requests && x.status == PENDING
  {
    Seqs.Filter(CanDeleteRequest, requests)
  }

  /** `getProcessedRequests`: the approved and rejected requests in list
      order. */
  function ProcessedRequests(requests: seq<LeaveRequest>): (r: seq<LeaveRequest>)
    ensures forall x :: x in r <==> x in requests && x.status != PENDING
  {
    Seqs.Filter(IsProcessed, requests)
  }

  /** A listed request shows in the pending list exactly when it can be
      deleted. */
  lemma PendingAreDeletable(requests: seq<LeaveRequest>, x: LeaveRequest)
    requires x in requests
    ensures x in PendingRequests(requests) <==> CanDeleteRequest(x)
    ensures x in ProcessedRequests(requests) <==> !CanDeleteRequest(x)
  {
  }

  /** The two lists partition the requests: every request lands in exactly
      one of them, as often as it is listed, and each list keeps the
      original relative order (splitting the input splits both lists). */
  lemma PendingProcessedPartition(requests: seq<LeaveRequest>, more: seq<LeaveRequest>)
    ensures multiset(PendingRequests(requests)) + multiset(ProcessedRequests(requests)) == multiset(requests)
    ensures |PendingRequests(requests)| + |ProcessedRequests(requests)| == |requests|
    ensures forall x :: !(x in PendingRequests(requests) && x in ProcessedRequests(requests))
    ensures PendingRequests(requests + more) == PendingRequests(requests) + PendingRequests(more)
    ensures ProcessedRequests(requests + more) == ProcessedRequests(requests) + ProcessedRequests(more)
  {
    Seqs.FilterPartition(CanDeleteRequest, IsProcessed, requests);
    Seqs.FilterConcat(CanDeleteRequest, requests, more);
    Seqs.FilterConcat(IsProcessed, requests, more);
  }

  // ---------------------------------------------------------------------
  // Deleting
  // ---------------------------------------------------------------------

  /** `confirmDeleteRequest`: remember the request and open the dialog. */
  function ConfirmDeleteRequest(page: Page, request: LeaveRequest): (p: Page)
    ensures p.requestToDelete == Some(request) && p.showConfirmation
    ensures p.requests == page.requests
    ensures p.showLeaveForm == page.showLeaveForm && p.isSubmitting == page.isSubmitting
    ensures p.successMessage == page.successMessage
  {
    page.(requestToDelete := Some(request), showConfirmation := true)
  }

  function HasOtherId(id: int): LeaveRequest -> bool
  {
    (r: LeaveRequest) => r.id != id
  }

  /** The requests left after removing every one with the given id. */
  function WithoutId(requests: seq<LeaveRequest>, id: int): (r: seq<LeaveRequest>)
    ensures forall x :: multiset(r)[x] == if x.id != id then multiset(requests)[x] else 0
    ensures forall x :: x in r <==> x in requests && x.id != id
  {
    Seqs.Filter(HasOtherId(id), requests)
  }

  /** `onDeleteConfirmed`: with a remembered request, drop every request
      sharing its id, keep the others in order, close the dialog and forget
      the request; without one, nothing happens. */
  function OnDeleteConfirmed(page: Page): (p: Page)
    ensures page.requestToDelete.None? ==> p == page
    ensures page.requestToDelete.Some? ==>
              var id := page.requestToDelete.value.id;
              && (forall x :: multiset(p.requests)[x] == if x.id != id then multiset(page.requests)[x] else 0)
              && (forall x :: x in p.requests ==> x.id != id)
              && p.requests == WithoutId(page.requests, id)
              && p.requestToDelete.None? && !p.showConfirmation
              && p.successMessage == DeletedMessage
              && p.showLeaveForm == page.showLeaveForm && p.isSubmitting == page.isSubmitting
  {
    match page.requestToDelete
    case None => page
    case Some(target) =>
      page.(requests := WithoutId(page.requests, target.id),
            showConfirmation := false,
            requestToDelete := None,
            successMessage := DeletedMessage)
  }

  /** Deleting keeps the surviving requests in their order. */
  lemma DeleteKeepsOrder(a: seq<LeaveRequest>, b: seq<LeaveRequest>, id: int)
    ensures WithoutId(a + b, id) == WithoutId(a, id) + WithoutId(b, id)
  {
    Seqs.FilterConcat(HasOtherId(id), a, b);
  }

  /** Deleting the same id again changes nothing. */
  lemma DeleteIdempotent(requests: seq<LeaveRequest>, id: int)
    ensures WithoutId(WithoutId(requests, id), id) == WithoutId(requests, id)
  {
    Seqs.FilterIdempotent(HasOtherId(id), requests);
  }

  /** `onDeleteCancelled`: close the dialog and forget the request; the
      list is untouched. */
  function OnDeleteCancelled(page: Page): (p: Page)
    ensures p.requests == page.requests
    ensures !p.showConfirmation && p.requestToDelete.None?
    ensures p.showLeaveForm == page.showLeaveForm && p.isSubmitting == page.isSubmitting
    ensures p.successMessage == page.successMessage
  {
    page.(showConfirmation := false, requestToDelete := None)
  }

  /** Confirming and then cancelling the dialog leaves the list as it was. */
  lemma CancelledDeleteChangesNothing(page: Page, request: LeaveRequest)
    ensures OnDeleteCancelled(ConfirmDeleteRequest(page, request)).requests == page.requests
    ensures OnDeleteConfirmed(OnDeleteCancelled(ConfirmDeleteRequest(page, request))).requests == page.requests
  {
  }

  // ---------------------------------------------------------------------
  // Submitting
  // ---------------------------------------------------------------------

  /** The first catalogue course with the given id, as `Array.find`. */
  function FindCourse(courses: seq<CatalogCourse>, id: int): (r: Option<CatalogCourse>)
    ensures r.Some? ==> r.value in courses && r.value.id == id
    ensures r.None? ==> forall c :: c in courses ==> c.id != id
    ensures r.Some? ==> exists i :: 0 <= i < |courses| && courses[i] == r.value && forall j :: 0 <= j < i ==> courses[j].id != id
  {
    if |courses| == 0 then None
    else if courses[0].id == id then Some(courses[0])
    else
      var r := FindCourse(courses[1..], id);
      if r.Some? then
        var i :| 0 <= i < |courses[1..]| && courses[1..][i] == r.value && forall j :: 0 <= j < i ==> courses[1..][j].id != id;
        assert courses[i + 1] == r.value;
        r
      else r
  }

  /** The request built from a valid form: course name and code from the
      catalogue (empty when the course is unknown), status PENDING. */
  function NewRequest(id: int, form: LeaveForm, courses: seq<CatalogCourse>, now: string): (r: LeaveRequest)
    ensures r.id == id && r.status == PENDING && r.requestedAt == now
    ensures r.fromDate == form.fromDate && r.toDate == form.toDate && r.reason == form.reason
    ensures r.processedAt.None? && r.processedBy.None? && r.remarks.None?
    ensures r.proofDocument == form.proofDocument
    ensures r.courseName == (if FindCourse(courses, form.courseId).Some? then FindCourse(courses, form.courseId).value.name else "")
    ensures r.courseCode == (if FindCourse(courses, form.courseId).Some? then FindCourse(courses, form.courseId).value.code else "")
    ensures (forall c :: c in courses ==> c.id != form.courseId) ==> r.courseName == "" && r.courseCode == ""
  {
    var course := FindCourse(courses, form.courseId);
    LeaveRequest(id,
                 if course.Some? then course.value.name else "",
                 if course.Some? then course.value.code else "",
                 form.fromDate, form.toDate, form.reason, form.proofDocument,
                 PENDING, now, None, None, None)
  }

  /** `onSubmitLeave` as written: a valid form puts a PENDING request with
      id "length + 1" at the front of the list and closes the form; an
      invalid one leaves the page as it was. */
  function OnSubmitLeaveAsWritten(page: Page, form: LeaveForm, valid: bool, courses: seq<CatalogCourse>, now: string): (p: Page)
    ensures !valid ==> p == page
    ensures valid ==>
              && |p.requests| == |page.requests| + 1
              && p.requests[0].status == PENDING
              && p.requests[0].id == |page.requests| + 1
              && p.requests[0] == NewRequest(|page.requests| + 1, form, courses, now)
              && p.requests[1..] == page.requests
              && !p.showLeaveForm && !p.isSubmitting && p.successMessage == SubmittedMessage
              && p.showConfirmation == page.showConfirmation && p.requestToDelete == page.requestToDelete
  {
    if valid then
      page.(requests := [NewRequest(|page.requests| + 1, form, courses, now)] + page.requests,
            isSubmitting := false,
            showLeaveForm := false,
            successMessage := SubmittedMessage)
    else page
  }

  /** Every request has its own id. */
  predicate UniqueIds(requests: seq<LeaveRequest>)
  {
    forall i, j :: 0 <= i < j < |requests| ==> requests[i].id != requests[j].id
  }

  /** A page with ids 2 and 3, as the demo list is after request 1 has been
      withdrawn. */
  function AfterFirstWithdrawn(r2: LeaveRequest, r3: LeaveRequest): Page
  {
    Page([r2, r3], false, false, false, None, "")
  }

  /** The id rule can reuse a live id: with requests 2 and 3 listed, the
      next request also gets id 3, and withdrawing it then deletes request
      3 as well. */
  lemma AsWrittenReusesIds(r2: LeaveRequest, r3: LeaveRequest, form: LeaveForm, courses: seq<CatalogCourse>, now: string)
    requires r2.id == 2 && r3.id == 3
    ensures var p := OnSubmitLeaveAsWritten(AfterFirstWithdrawn(r2, r3), form, true, courses, now);
            && !UniqueIds(p.requests)
            && var q := OnDeleteConfirmed(ConfirmDeleteRequest(p, p.requests[0]));
            && r3 !in q.requests && |q.requests| == 1
  {
    var p := OnSubmitLeaveAsWritten(AfterFirstWithdrawn(r2, r3), form, true, courses, now);
    assert p.requests == [p.requests[0], r2, r3];
    var n := p.requests[0];
    var keep := HasOtherId(3);
    assert [n, r2, r3] == [n] + [r2] + [r3];
    Seqs.FilterConcat(keep, [n] + [r2], [r3]);
    Seqs.FilterConcat(keep, [n], [r2]);
    assert Seqs.Filter(keep, [n]) == [];
    assert Seqs.Filter(keep, [r2]) == [r2];
    assert Seqs.Filter(keep, [r3]) == [];
    assert WithoutId(p.requests, 3) == [r2];
  }

  /** The largest id listed, 0 for an empty list. */
  function MaxId(requests: seq<LeaveRequest>): (m: int)
    ensures forall x :: x in requests ==> x.id <= m
    ensures |requests| == 0 ==> m == 0
  {
    if |requests| == 0 then 0
    else
      var rest := MaxId(requests[1..]);
      assert forall x :: x in requests ==> x == requests[0] || x in requests[1..];
      if requests[0].id > rest then requests[0].id else rest
  }

  /** The id given to the next request: one more than any id listed. */
  function NextId(requests: seq<LeaveRequest>): (id: int)
    ensures forall x :: x in requests ==> x.id < id
  {
    MaxId(requests) + 1
  }

  /** `onSubmitLeave` with ids that stay unique: a valid form puts a
      PENDING request with a fresh id at the front of the list and closes
      the form; an invalid one leaves the page as it was. */
  function OnSubmitLeave(page: Page, form: LeaveForm, valid: bool, courses: seq<CatalogCourse>, now: string): (p: Page)
    ensures !valid ==> p == page
    ensures valid ==>
              && |p.requests| == |page.requests| + 1
              && p.requests[0].status == PENDING
              && (forall x :: x in page.requests ==> x.id != p.requests[0].id)
              && p.requests[0] == NewRequest(p.requests[0].id, form, courses, now)
              && p.requests[1..] == page.requests
              && !p.showLeaveForm && !p.isSubmitting && p.successMessage == SubmittedMessage
              && p.showConfirmation == page.showConfirmation && p.requestToDelete == page.requestToDelete
    ensures UniqueIds(page.requests) ==> UniqueIds(p.requests)
  {
    if valid then
      var r := NewRequest(NextId(page.requests), form, courses, now);
      var p := page.(requests := [r] + page.requests,
                     isSubmitting := false,
                     showLeaveForm := false,
                     successMessage := SubmittedMessage);
      assert forall i :: 1 <= i < |p.requests| ==> p.requests[i] == page.requests[i - 1];
      assert forall i :: 0 <= i < |page.requests| ==> page.requests[i] in page.requests;
      p
    else page
  }

  /** With ids kept unique, submitting and then withdrawing the new
      request restores the list exactly. */
  lemma SubmitThenWithdrawRestores(page: Page, form: LeaveForm, courses: seq<CatalogCourse>, now: string)
    ensures var p := OnSubmitLeave(page, form, true, courses, now);
            OnDeleteConfirmed(ConfirmDeleteRequest(p, p.requests[0])).requests == page.requests
  {
    var p := OnSubmitLeave(page, form, true, courses, now);
    var n := p.requests[0];
    var keep := HasOtherId(n.id);
    assert p.requests == [n] + page.requests;
    Seqs.FilterConcat(keep, [n], page.requests);
    assert Seqs.Filter(keep, [n]) == [];
    forall i | 0 <= i < |page.requests|
      ensures keep(page.requests[i])
    {
      assert page.requests[i] in page.requests;
    }
    Seqs.FilterAll(keep, page.requests);
    assert WithoutId(p.requests, n.id) == page.requests;
  }

  /** A submitted request is pending and deletable: the pending list grows
      by the new request at its front, the processed list is unchanged. */
  lemma SubmittedRequestIsPending(page: Page, form: LeaveForm, courses: seq<CatalogCourse>, now: string)
    ensures var p := OnSubmitLeave(page, form, true, courses, now);
            && CanDeleteRequest(p.requests[0])
            && PendingRequests(p.requests) == [p.requests[0]] + PendingRequests(page.requests)
            && ProcessedRequests(p.requests) == ProcessedRequests(page.requests)
  {
    var p := OnSubmitLeave(page, form, true, courses, now);
    assert p.requests == [p.requests[0]] + page.requests;
    Seqs.FilterConcat(CanDeleteRequest, [p.requests[0]], page.requests);
    Seqs.FilterConcat(IsProcessed, [p.requests[0]], page.requests);
  }

  /** Deleting keeps ids unique. */
  lemma DeleteKeepsIdsUnique(page: Page)
    requires UniqueIds(page.requests)
    ensures UniqueIds(OnDeleteConfirmed(page).requests)
  {
    if page.requestToDelete.Some? {
      SubsequenceKeepsIdsUnique(HasOtherId(page.requestToDelete.value.id), page.requests);
    }
  }

  /** A list with a head has unique ids exactly when its tail does and no
      tail request shares the head's id. */
  lemma UniqueIdsCons(x: LeaveRequest, rest: seq<LeaveRequest>)
    ensures UniqueIds([x] + rest) <==> UniqueIds(rest) && forall y :: y in rest ==> y.id != x.id
  {
    var s := [x] + rest;
    assert forall i :: 0 <= i < |rest| ==> s[i + 1] == rest[i];
    if UniqueIds(s) {
      forall y | y in rest
        ensures y.id != x.id
      {
        var k :| 0 <= k < |rest| && rest[k] == y;
        assert s[0] == x && s[k + 1] == y;
        assert s[0].id != s[k + 1].id;
      }
    }
    if UniqueIds(rest) && forall y :: y in rest ==> y.id != x.id {
      forall i, j | 0 <= i < j < |s|
        ensures s[i].id != s[j].id
      {
        if i == 0 {
          assert s[j] == rest[j - 1];
          assert s[j] in rest;
        } else {
          assert s[i] == rest[i - 1] && s[j] == rest[j - 1];
        }
      }
    }
  }

  /** Selecting requests from a list with unique ids keeps them unique. */
  lemma {:induction false} SubsequenceKeepsIdsUnique(p: LeaveRequest -> bool, requests: seq<LeaveRequest>)
    requires UniqueIds(requests)
    ensures UniqueIds(Seqs.Filter(p, requests))
  {
    if |requests| > 0 {
      var x := requests[0];
      assert requests == [x] + requests[1..];
      UniqueIdsCons(x, requests[1..]);
      SubsequenceKeepsIdsUnique(p, requests[1..]);
      var rest := Seqs.Filter(p, requests[1..]);
      if p(x) {
        assert Seqs.Filter(p, requests) == [x] + rest;
        UniqueIdsCons(x, rest);
      } else {
        assert Seqs.Filter(p, requests) == rest;
      }
    }
  }

  // ---------------------------------------------------------------------
  // Presentation
  // ---------------------------------------------------------------------

  /** `getStatusColor`: the badge colour of a status, "secondary" for any
      status the page does not know. */
  function StatusColor(status: string): (color: string)
    ensures status == "PENDING" <==> color == "warning"
    ensures status == "APPROVED" <==> color == "success"
    ensures status == "REJECTED" <==> color == "danger"
    ensures status != "PENDING" && status != "APPROVED" && status != "REJECTED" <==> color == "secondary"
  {
    match status
    case "PENDING" => "warning"
    case "APPROVED" => "success"
    case "REJECTED" => "danger"
    case _ => "secondary"
  }

  /** `getStatusIcon`: the icon of a status, a question mark for any status
      the page does not know. */
  function StatusIcon(status: string): (icon: string)
    ensures status == "PENDING" <==> icon == "fas fa-clock"
    ensures status == "APPROVED" <==> icon == "fas fa-check-circle"
    ensures status == "REJECTED" <==> icon == "fas fa-times-circle"
    ensures icon == "fas fa-question-circle" <==> StatusColor(status) == "secondary"
  {
    match status
    case "PENDING" => "fas fa-clock"
    case "APPROVED" => "fas fa-check-circle"
    case "REJECTED" => "fas fa-times-circle"
    case _ => "fas fa-question-circle"
  }

  /** Every real status gets its own colour and icon; the fallbacks are
      never used for one. */
  lemma StatusesAreDistinguished(a: LeaveStatus, b: LeaveStatus)
    ensures StatusColor(StatusName(a)) != "secondary"
    ensures StatusIcon(StatusName(a)) != "fas fa-question-circle"
    ensures a != b ==> StatusColor(StatusName(a)) != StatusColor(StatusName(b))
    ensures a != b ==> StatusIcon(StatusName(a)) != StatusIcon(StatusName(b))
  {
  }

  // ---------------------------------------------------------------------
  // Day counting
  // ---------------------------------------------------------------------

  /** `getTotalDays` over day numbers: the whole days from one date to the
      other, both included, in either order. */
  function TotalDays(fromDate: int, toDate: int): (n: int)
    ensures n >= 1
    ensures n == 1 <==> fromDate == toDate
  {
    (if toDate >= fromDate then toDate - fromDate else fromDate - toDate) + 1
  }

  /** The calendar days from `lo` to `hi`, both included. */
  function DaysBetween(lo: int, hi: int): (days: set<int>)
    ensures forall d :: d in days <==> lo <= d <= hi
    decreases hi - lo
  {
    if hi < lo then {} else DaysBetween(lo, hi - 1) + {hi}
  }

  lemma {:induction false} DaysBetweenSize(lo: int, hi: int)
    requires lo <= hi
    ensures |DaysBetween(lo, hi)| == hi - lo + 1
    decreases hi - lo
  {
    if lo < hi {
      DaysBetweenSize(lo, hi - 1);
      assert hi !in DaysBetween(lo, hi - 1);
    } else {
      assert DaysBetween(lo, hi) == {lo};
    }
  }

  /** The total is the number of calendar days the leave covers, whichever
      date is given first. */
  lemma TotalDaysCountsCoveredDays(fromDate: int, toDate: int)
    ensures TotalDays(fromDate, toDate) == TotalDays(toDate, fromDate)
    ensures fromDate <= toDate ==> TotalDays(fromDate, toDate) == |DaysBetween(fromDate, toDate)|
    ensures toDate <= fromDate ==> TotalDays(fromDate, toDate) == |DaysBetween(toDate, fromDate)|
  {
    if fromDate <= toDate {
      DaysBetweenSize(fromDate, toDate);
    } else {
      DaysBetweenSize(toDate, fromDate);
    }
  }
}
