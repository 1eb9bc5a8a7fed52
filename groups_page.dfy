/**
 * The pure state transitions of the groups page (src/pages/Groups.tsx): the
 * activity-tag editor of the creation form, the form reset after a create,
 * and the choice of button on each group card.
 */
module GroupsPage {
  import opened PyList
  import opened Types

  /** The creation form; `maxMembers` is the text of a number input. */
  datatype GroupForm = GroupForm(
    name: string, description: string, activity: seq<string>, location: string, maxMembers: string, ageGroup: string)

  /** The form's initial and post-create value. */
  const DefaultForm: GroupForm := GroupForm("", "", [], "", "10", "All Ages")

  /** The form together with the text being typed into the tag input. */
  datatype TagEditor = TagEditor(form: GroupForm, input: string)

  datatype Key = Space | Enter | Backspace | OtherKey

  /** The characters `String.prototype.trim` strips (WhiteSpace and LineTerminator). */
  predicate IsJsSpace(c: char) {
    c == ' ' || c == '\t' || c == '\n' || c == '\r' || c == '\U{000B}' || c == '\U{000C}'
    || c == '\U{00A0}' || c == '\U{FEFF}' || c == '\U{1680}' || ('\U{2000}' <= c <= '\U{200A}')
    || c == '\U{2028}' || c == '\U{2029}' || c == '\U{202F}' || c == '\U{205F}' || c == '\U{3000}'
  }

  function TrimStart(s: string): (r: string)
    ensures |r| <= |s| && r == s[|s| - |r|..]
    ensures r == [] || !IsJsSpace(r[0])
    ensures forall k :: 0 <= k < |s| - |r| ==> IsJsSpace(s[k])
  {
    if s != [] && IsJsSpace(s[0]) then TrimStart(s[1..]) else s
  }

  function TrimEnd(s: string): (r: string)
    ensures |r| <= |s| && r == s[..|r|]
    ensures r == [] || !IsJsSpace(r[|r| - 1])
    ensures forall k :: |r| <= k < |s| ==> IsJsSpace(s[k])
  {
    if s != [] && IsJsSpace(s[|s| - 1]) then TrimEnd(s[..|s| - 1]) else s
  }

  /** `r` is the slice of `s` at `i` with only white space before and after it. */
  predicate Padded(s: string, i: int, r: string) {
    && 0 <= i <= |s| - |r|
    && r == s[i..i + |r|]
    && (forall k :: 0 <= k < i ==> IsJsSpace(s[k]))
    && (forall k :: i + |r| <= k < |s| ==> IsJsSpace(s[k]))
  }

  /** `s.trim()`: the input without leading and trailing white space. */
  function Trim(s: string): (r: string)
    ensures r == [] || (!IsJsSpace(r[0]) && !IsJsSpace(r[|r| - 1]))
    ensures r == [] <==> forall k :: 0 <= k < |s| ==> IsJsSpace(s[k])
  {
    TrimBlank(s);
    TrimEnd(TrimStart(s))
  }

  /** Trimming cuts only white space, and only from the two ends. */
  lemma TrimWithin(s: string)
    ensures exists i :: Padded(s, i, Trim(s))
  {
    PaddedSlice(s, TrimStart(s), Trim(s));
  }

  /** A prefix of a suffix, with white space cut on both sides, is a padded slice. */
  lemma PaddedSlice(s: string, front: string, r: string)
    requires |r| <= |front| <= |s| && front == s[|s| - |front|..] && r == front[..|r|]
    requires forall k :: 0 <= k < |s| - |front| ==> IsJsSpace(s[k])
    requires forall k :: |r| <= k < |front| ==> IsJsSpace(front[k])
    ensures Padded(s, |s| - |front|, r)
  {
    var i := |s| - |front|;
    forall k | i + |r| <= k < |s|
      ensures IsJsSpace(s[k])
    {
      assert s[k] == front[k - i];
    }
  }

  /** Trimming leaves nothing exactly when the input is all white space. */
  lemma TrimBlank(s: string)
    ensures var r := TrimEnd(TrimStart(s));
      (r == [] || !IsJsSpace(r[0])) && (r == [] <==> forall k :: 0 <= k < |s| ==> IsJsSpace(s[k]))
  {
    var front := TrimStart(s);
    var r := TrimEnd(front);
    if r == [] {
      assert front == [];
    } else {
      assert r[0] == front[0];
    }
  }

  /** `handleActivityKeyDown`: space or enter adds the trimmed input as a new tag when it is
      non-blank and not yet a tag, and clears the input; backspace on an empty input drops the
      last tag; anything else changes nothing. */
  function KeyDown(e: TagEditor, key: Key): (r: TagEditor)
    ensures r.form == e.form.(activity := r.form.activity)
    ensures (key == Space || key == Enter) ==>
      var t := Trim(e.input);
      if t != "" && t !in e.form.activity then r.form.activity == e.form.activity + [t] && r.input == ""
      else r == e
    ensures key == Backspace ==>
      if e.input == "" && |e.form.activity| > 0 then
        r.form.activity == e.form.activity[..|e.form.activity| - 1] && r.input == e.input
      else r == e
    ensures key == OtherKey ==> r == e
  {
    var tags := e.form.activity;
    if key == Space || key == Enter then
      var trimmed := Trim(e.input);
      if trimmed != "" && trimmed !in tags then TagEditor(e.form.(activity := tags + [trimmed]), "")
      else e
    else if key == Backspace && e.input == "" && |tags| > 0 then
      TagEditor(e.form.(activity := tags[..|tags| - 1]), e.input)
    else e
  }

  /** The tag list stays duplicate-free. */
  lemma KeyDownKeepsDistinct(e: TagEditor, key: Key)
    requires Distinct(e.form.activity)
    ensures Distinct(KeyDown(e, key).form.activity)
  {
    var tags := e.form.activity;
    if (key == Space || key == Enter) && Trim(e.input) != "" && Trim(e.input) !in tags {
      var t := Trim(e.input);
      var r := tags + [t];
      assert KeyDown(e, key).form.activity == r;
      forall i, j | 0 <= i < j < |r|
        ensures r[i] != r[j]
      {
        if j == |tags| {
          assert r[i] == tags[i];
        } else {
          assert r[i] == tags[i] && r[j] == tags[j];
        }
      }
    } else if key == Backspace && e.input == "" && |tags| > 0 {
      assert KeyDown(e, key).form.activity == tags[..|tags| - 1];
    } else {
      assert KeyDown(e, key).form.activity == tags;
    }
  }

  /** A key press adds at most one tag, and a tag it adds is the trimmed input: non-blank and
      without surrounding white space. */
  lemma KeyDownAddsTrimmed(e: TagEditor, key: Key)
    ensures var r := KeyDown(e, key).form.activity;
      && |r| <= |e.form.activity| + 1
      && (|r| == |e.form.activity| + 1 ==>
            var t := r[|e.form.activity|];
            t == Trim(e.input) && t != "" && !IsJsSpace(t[0]) && !IsJsSpace(t[|t| - 1]))
  {
    var tags := e.form.activity;
    if (key == Space || key == Enter) && Trim(e.input) != "" && Trim(e.input) !in tags {
      assert KeyDown(e, key).form.activity == tags + [Trim(e.input)];
    } else if key == Backspace && e.input == "" && |tags| > 0 {
      assert |KeyDown(e, key).form.activity| < |tags|;
    } else {
      assert KeyDown(e, key).form.activity == tags;
    }
  }

  /** A tag just added by space or enter is taken back by a backspace on the now empty input. */
  lemma AddThenBackspace(e: TagEditor, key: Key)
    requires key == Space || key == Enter
    requires Trim(e.input) != "" && Trim(e.input) !in e.form.activity
    ensures KeyDown(KeyDown(e, key), Backspace).form == e.form
  {
    var added := KeyDown(e, key);
    assert added.form.activity[..|added.form.activity| - 1] == e.form.activity;
  }

  /** `removeActivityTag`: drops every occurrence of the tag, keeping the others in order. */
  function RemoveTag(e: TagEditor, tag: string): (r: TagEditor)
    ensures r.input == e.input && r.form == e.form.(activity := r.form.activity)
    ensures tag !in r.form.activity
    ensures forall i :: 0 <= i < |e.form.activity| && e.form.activity[i] != tag ==> e.form.activity[i] in r.form.activity
    ensures forall i :: 0 <= i < |r.form.activity| ==> r.form.activity[i] in e.form.activity
  {
    TagEditor(e.form.(activity := Without(e.form.activity, tag)), e.input)
  }

  /** Removing a tag that was just added gives the original form back. */
  lemma AddThenRemove(e: TagEditor, key: Key)
    requires key == Space || key == Enter
    requires Trim(e.input) != "" && Trim(e.input) !in e.form.activity
    ensures RemoveTag(KeyDown(e, key), Trim(e.input)).form == e.form
  {
    var t := Trim(e.input);
    WithoutAppend(e.form.activity, t, t);
    WithoutAbsent(e.form.activity, t);
  }

  /** `handleCreateGroup`'s effect on the form: reset after a successful create, kept otherwise. */
  function AfterCreate(e: TagEditor, created: bool): (r: TagEditor)
    ensures created ==> r.form == DefaultForm && r.input == ""
    ensures !created ==> r == e
  {
    if created then TagEditor(DefaultForm, "") else e
  }

  /** `isFull`. */
  predicate IsFull(g: Group) {
    |g.members| >= g.maxMembers
  }

  datatype CardButton = DeleteGroup | LeaveGroup | JoinGroup(disabled: bool, caption: string)

  /** The card footer: members get delete (the admin) or leave; others get join, disabled and
      labelled "Group Full" exactly when the group is full. */
  function Button(g: Group, me: string): (b: CardButton)
    ensures b == DeleteGroup <==> me in g.members && g.adminId == me
    ensures b == LeaveGroup <==> me in g.members && g.adminId != me
    ensures b.JoinGroup? <==> me !in g.members
    ensures b.JoinGroup? ==> (b.disabled <==> IsFull(g)) && b.caption == (if IsFull(g) then "Group Full" else "Join Group")
  {
    if me in g.members then
      if g.adminId == me then DeleteGroup else LeaveGroup
    else
      var full := |g.members| >= g.maxMembers;
      JoinGroup(full, if full then "Group Full" else "Join Group")
  }
}
