/**
 * App.tsx: the prototype's top-level state (the list of classes and the
 * selected class) and the handlers that replace it.
 */
module App {
  import opened Wrappers
  import opened Prototype

  /** The `classes` and `selectedClass` state of `App`. */
  datatype AppState = AppState(classes: seq<ClassData>, selected: Option<ClassData>)

  /** `handleCreateClass`: `setClasses([...classes, newClass])`. */
  function HandleCreateClass(st: AppState, newClass: ClassData): AppState {
    st.(classes := st.classes + [newClass])
  }

  /** `classes.map(c => c.id === updated.id ? updated : c)`. */
  function ReplaceById(classes: seq<ClassData>, updated: ClassData): seq<ClassData> {
    seq(|classes|, i requires 0 <= i < |classes| => if classes[i].id == updated.id then updated else classes[i])
  }

  /** `handleUpdateClass`: replace by id, then select the updated class. */
  function HandleUpdateClass(st: AppState, updated: ClassData): AppState {
    AppState(ReplaceById(st.classes, updated), Some(updated))
  }

  /** `handleClassClick`. */
  function HandleClassClick(st: AppState, c: ClassData): AppState {
    st.(selected := Some(c))
  }

  /** `handleBackToDashboard`. */
  function HandleBackToDashboard(st: AppState): AppState {
    st.(selected := None)
  }

  function IdsOf(classes: seq<ClassData>): (ids: seq<string>)
    ensures |ids| == |classes| && forall i :: 0 <= i < |classes| ==> ids[i] == classes[i].id
  {
    seq(|classes|, i requires 0 <= i < |classes| => classes[i].id)
  }

  /** Creating a class appends it: the old list is a prefix, the length grows by one, the selection stays. */
  lemma CreateAppends(st: AppState, c: ClassData)
    ensures var after := HandleCreateClass(st, c);
            |after.classes| == |st.classes| + 1 && after.classes[..|st.classes|] == st.classes &&
            after.classes[|st.classes|] == c && after.selected == st.selected
  {
    assert (st.classes + [c])[..|st.classes|] == st.classes;
  }

  /**
   * An update keeps the list's length and its sequence of ids; every class
   * carrying the updated id becomes the updated class, every other class is
   * left as it was, and the updated class is selected.
   */
  lemma UpdateReplacesById(st: AppState, u: ClassData)
    ensures var after := HandleUpdateClass(st, u);
            IdsOf(after.classes) == IdsOf(st.classes) &&
            (forall i :: 0 <= i < |st.classes| && st.classes[i].id == u.id ==> after.classes[i] == u) &&
            (forall c :: c in st.classes && c.id != u.id ==> c in after.classes) &&
            (forall c :: c in after.classes ==> c == u || (c in st.classes && c.id != u.id)) &&
            after.selected == Some(u)
  {
    var after := HandleUpdateClass(st, u);
    forall c | c in st.classes && c.id != u.id
      ensures c in after.classes
    {
      var i :| 0 <= i < |st.classes| && st.classes[i] == c;
      assert after.classes[i] == c;
    }
  }

  /** Updating with the same class twice is updating once. */
  lemma UpdateIdempotent(st: AppState, u: ClassData)
    ensures HandleUpdateClass(HandleUpdateClass(st, u), u) == HandleUpdateClass(st, u)
  {
    var once := ReplaceById(st.classes, u);
    assert ReplaceById(once, u) == once;
  }

  /**
   * An update whose id is in no class leaves the list as it was, but the
   * class it carries is selected all the same.
   */
  lemma UpdateUnknownIdOnlySelects(st: AppState, u: ClassData)
    requires forall i :: 0 <= i < |st.classes| ==> st.classes[i].id != u.id
    ensures HandleUpdateClass(st, u) == AppState(st.classes, Some(u))
  {
    assert ReplaceById(st.classes, u) == st.classes;
  }

  /** Putting back the class an update replaced restores the list, when ids are unique. */
  lemma UpdateUndone(st: AppState, k: nat, u: ClassData)
    requires k < |st.classes| && st.classes[k].id == u.id
    requires forall i, j :: 0 <= i < j < |st.classes| ==> st.classes[i].id != st.classes[j].id
    ensures HandleUpdateClass(HandleUpdateClass(st, u), st.classes[k]).classes == st.classes
  {
    var once := ReplaceById(st.classes, u);
    var twice := ReplaceById(once, st.classes[k]);
    forall i | 0 <= i < |st.classes|
      ensures twice[i] == st.classes[i]
    {
      if i != k {
        assert st.classes[i].id != st.classes[k].id;
      }
    }
  }

  /** Clicking a class selects it and going back clears the selection; neither touches the list. */
  lemma SelectionHandlers(st: AppState, c: ClassData)
    ensures HandleClassClick(st, c) == AppState(st.classes, Some(c))
    ensures HandleBackToDashboard(st) == AppState(st.classes, None)
    ensures HandleBackToDashboard(HandleClassClick(st, c)) == HandleBackToDashboard(st)
  {
  }
}
