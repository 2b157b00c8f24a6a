/** The issue list: the add-issue form and the host-only selection controls. */
module IssueManager {
  import opened Types
  import opened Reducer
  import opened Sync

  // ---------------------------------------------------------------------
  // Trimming
  // ---------------------------------------------------------------------

  /** The characters `String.prototype.trim` removes: white space and line terminators. */
  predicate IsSpace(c: char) {
    || c == '\t' || c == '\n' || c == '\U{000B}' || c == '\U{000C}' || c == '\r' || c == ' '
    || c == '\U{00A0}' || c == '\U{1680}' || ('\U{2000}' <= c <= '\U{200A}')
    || c == '\U{2028}' || c == '\U{2029}' || c == '\U{202F}' || c == '\U{205F}'
    || c == '\U{3000}' || c == '\U{FEFF}'
  }

  predicate Blank(s: string) {
    forall i :: 0 <= i < |s| ==> IsSpace(s[i])
  }

  /** `s` without its leading white space. */
  function TrimStart(s: string): (r: string)
    ensures |r| <= |s| && r == s[|s| - |r|..]
    ensures Blank(s[..|s| - |r|])
    ensures r == [] || !IsSpace(r[0])
  {
    if s != [] && IsSpace(s[0]) then
      var r := TrimStart(s[1..]);
      var k := |s| - |r|;
      assert s[1..][k - 1..] == s[k..];
      assert forall i :: 1 <= i < k ==> s[..k][i] == s[1..][..k - 1][i - 1];
      r
    else s
  }

  /** `s` without its trailing white space. */
  function TrimEnd(s: string): (r: string)
    ensures |r| <= |s| && r == s[..|r|]
    ensures Blank(s[|r|..])
    ensures r == [] || !IsSpace(r[|r| - 1])
  {
    if s != [] && IsSpace(s[|s| - 1]) then
      var r := TrimEnd(s[..|s| - 1]);
      assert s[..|s| - 1][..|r|] == s[..|r|];
      assert forall i :: |r| <= i < |s| - 1 ==> s[i] == s[..|s| - 1][|r|..][i - |r|];
      r
    else s
  }

  /** `s` without leading and trailing white space. */
  function Trim(s: string): (r: string)
    ensures exists i, j :: 0 <= i <= j <= |s| && r == s[i..j] && Blank(s[..i]) && Blank(s[j..])
    ensures r == [] || (!IsSpace(r[0]) && !IsSpace(r[|r| - 1]))
  {
    var t := TrimStart(s);
    var r := TrimEnd(t);
    var i := |s| - |t|;
    var j := i + |r|;
    assert r == s[i..j];
    assert s[j..] == t[|r|..];
    r
  }

  /** A string trims to nothing exactly when it is all white space. */
  lemma TrimEmptyIffBlank(s: string)
    ensures Trim(s) == [] <==> Blank(s)
  {
    var i, j :| 0 <= i <= j <= |s| && Trim(s) == s[i..j] && Blank(s[..i]) && Blank(s[j..]);
    if Trim(s) == [] {
      forall k | 0 <= k < |s| ensures IsSpace(s[k]) {
        if k < i {
          assert s[..i][k] == s[k];
        } else {
          assert s[j..][k - j] == s[k];
        }
      }
    } else {
      assert s[i] == Trim(s)[0];
    }
  }

  // ---------------------------------------------------------------------
  // Adding an issue
  // ---------------------------------------------------------------------

  /**
   * The issue the form submits: none when the title is blank; otherwise the
   * trimmed title, the trimmed description unless it is blank, and no estimate.
   */
  function NewIssue(id: string, title: string, description: string): (r: Option<Issue>)
    ensures r.None? <==> Blank(title)
    ensures r.Some? ==>
      && r.value.id == id
      && r.value.title == Trim(title) && r.value.title != []
      && r.value.estimate == None
      && (r.value.description.None? <==> Blank(description))
      && (r.value.description.Some? ==> r.value.description.value == Trim(description))
  {
    TrimEmptyIffBlank(title);
    TrimEmptyIffBlank(description);
    if Trim(title) == [] then None
    else
      var d := Trim(description);
      Some(Issue(id, Trim(title), if d == [] then None else Some(d), None))
  }

  /** The add-issue form's fields. */
  class IssueForm {
    var title: string
    var description: string
    var showAddForm: bool

    constructor ()
      ensures title == "" && description == "" && !showAddForm
    {
      title := "";
      description := "";
      showAddForm := false;
    }

    /** The host's "+ Add Issue" / "Cancel" button. */
    method ToggleForm()
      modifies this`showAddForm
      ensures showAddForm == !old(showAddForm)
    {
      showAddForm := !showAddForm;
    }

    /**
     * Submits the form: with a blank title nothing happens; otherwise the new
     * issue is handed on and the form is cleared and hidden. `id` stands for
     * the random id the source draws.
     */
    method HandleAddIssue(id: string) returns (added: Option<Issue>)
      modifies this
      ensures added == NewIssue(id, old(title), old(description))
      ensures added.None? ==>
        title == old(title) && description == old(description) && showAddForm == old(showAddForm)
      ensures added.Some? ==> title == "" && description == "" && !showAddForm
    {
      added := NewIssue(id, title, description);
      if added.None? {
        return;
      }
      title := "";
      description := "";
      showAddForm := false;
    }
  }

  // ---------------------------------------------------------------------
  // Host-only controls of the list
  // ---------------------------------------------------------------------

  /** Clicking an issue selects it, on the host's screen only. */
  function ClickIssue(isHost: bool, issue: Issue): (c: Option<Command>)
    ensures c.Some? <==> isHost
    ensures c.Some? ==> c.value == SelectIssueCall(issue)
  {
    if isHost then Some(SelectIssueCall(issue)) else None
  }

  /** "Start Voting" is offered to the host on the current issue only. */
  predicate StartVotingOffered(isHost: bool, currentIssue: Option<Issue>, issue: Issue) {
    isHost && currentIssue.Some? && currentIssue.value.id == issue.id
  }

  /** After the host's selection is folded, "Start Voting" is offered on exactly the selected issue's id. */
  lemma SelectionOffersStartVoting(s: GameState, selected: Issue, other: Issue)
    ensures StartVotingOffered(true, Next(s, IssueSelected(selected)).currentIssue, selected)
    ensures StartVotingOffered(true, Next(s, IssueSelected(selected)).currentIssue, other)
            <==> other.id == selected.id
  {
  }
}
