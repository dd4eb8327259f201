/** The comment admin's bulk moderation actions over a selection of comment keys. */
module Admin {
  import opened Models
  import Store

  /** The comments table after `queryset.update(approved=True, is_spam=False)` on the `selected` keys. */
  function Approve(rows: map<int, CommentRow>, selected: set<int>): (r: map<int, CommentRow>)
    ensures r.Keys == rows.Keys
    ensures forall id :: id in r && id in selected ==> r[id].approved && !r[id].isSpam
    ensures forall id :: id in r ==> r[id].(approved := rows[id].approved, isSpam := rows[id].isSpam) == rows[id]
    ensures forall id :: id in r && id !in selected ==> r[id] == rows[id]
  {
    map id | id in rows :: if id in selected then rows[id].(approved := true, isSpam := false) else rows[id]
  }

  /** The comments table after `queryset.update(approved=False)` on the `selected` keys. */
  function Reject(rows: map<int, CommentRow>, selected: set<int>): (r: map<int, CommentRow>)
    ensures r.Keys == rows.Keys
    ensures forall id :: id in r && id in selected ==> !r[id].approved
    ensures forall id :: id in r ==> r[id].isSpam == rows[id].isSpam
    ensures forall id :: id in r ==> r[id].(approved := rows[id].approved) == rows[id]
    ensures forall id :: id in r && id !in selected ==> r[id] == rows[id]
  {
    map id | id in rows :: if id in selected then rows[id].(approved := false) else rows[id]
  }

  /** `approve_comments`. */
  method ApproveComments(comments: Store.Table<CommentRow>, queryset: set<int>)
    requires comments.Valid()
    modifies comments`rows
    ensures comments.Valid()
    ensures comments.rows == Approve(old(comments.rows), queryset)
  {
    comments.rows := Approve(comments.rows, queryset);
  }

  /** `reject_comments`. */
  method RejectComments(comments: Store.Table<CommentRow>, queryset: set<int>)
    requires comments.Valid()
    modifies comments`rows
    ensures comments.Valid()
    ensures comments.rows == Reject(old(comments.rows), queryset)
  {
    comments.rows := Reject(comments.rows, queryset);
  }

  /** Approving the same selection twice is approving it once. */
  lemma ApproveIdempotent(rows: map<int, CommentRow>, selected: set<int>)
    ensures Approve(Approve(rows, selected), selected) == Approve(rows, selected)
  {
  }

  /** Rejecting the same selection twice is rejecting it once. */
  lemma RejectIdempotent(rows: map<int, CommentRow>, selected: set<int>)
    ensures Reject(Reject(rows, selected), selected) == Reject(rows, selected)
  {
  }

  /** Approval overrides an earlier rejection of the same selection. */
  lemma ApproveAfterReject(rows: map<int, CommentRow>, selected: set<int>)
    ensures Approve(Reject(rows, selected), selected) == Approve(rows, selected)
  {
    var a, b := Approve(Reject(rows, selected), selected), Approve(rows, selected);
    assert forall id :: id in a ==> a[id] == b[id];
  }

  /** Rejection after approval leaves the selection unapproved and not marked as spam. */
  lemma RejectAfterApprove(rows: map<int, CommentRow>, selected: set<int>)
    ensures var r := Reject(Approve(rows, selected), selected);
      forall id :: id in r && id in selected ==> !r[id].approved && !r[id].isSpam
  {
  }

  /** Moderation never touches parents or depths, so the comment tree keeps its shape. */
  lemma ModerationKeepsTree(rows: map<int, CommentRow>, selected: set<int>)
    requires WellFormedTree(rows)
    ensures WellFormedTree(Approve(rows, selected))
    ensures WellFormedTree(Reject(rows, selected))
  {
    var a, r := Approve(rows, selected), Reject(rows, selected);
    assert forall id :: id in a ==> a[id].parent == rows[id].parent && a[id].depth == rows[id].depth;
    assert forall id :: id in r ==> r[id].parent == rows[id].parent && r[id].depth == rows[id].depth;
  }
}
