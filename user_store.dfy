/**
 * The user state store (`useUser`): one persisted blob under a fixed key, read
 * once at start-up, and a patch operation that shallow-merges a partial state
 * over the previous one and writes the whole result back.
 */
module UserStore {
  import opened Types
  import Catalog
  import LearningCenter

  /** The storage key of the persisted blob. */
  const StorageKey: string := "dsq-user"

  /** The state synthesised when nothing usable is stored. */
  const DefaultState: UserState := UserState("Demo 用户", Catalog.DemoPurchased, map[], true)

  /** What the storage slot may hold: the serialisation of a state, or text
      that does not parse (including the empty string, which is never parsed). */
  datatype Blob = Json(state: UserState) | Unparsable

  /** Serialisation, modelled as an identity codec. */
  function Encode(s: UserState): Blob {
    Json(s)
  }

  /** Parsing: the stored state verbatim, with no check of its shape. */
  function Decode(b: Blob): (r: Option<UserState>)
    ensures b.Unparsable? <==> r.None?
  {
    match b
    case Json(s) => Some(s)
    case Unparsable => None
  }

  /** Parsing gives back exactly what was serialised. */
  lemma DecodeEncode(s: UserState)
    ensures Decode(Encode(s)) == Some(s)
  {
  }

  /** The initial state: the stored one if it parses, otherwise the default. */
  function Load(slot: Option<Blob>): (r: UserState)
    ensures slot.None? ==> r == DefaultState
    ensures slot == Some(Unparsable) ==> r == DefaultState
    ensures forall s :: slot == Some(Encode(s)) ==> r == s
  {
    match slot
    case None => DefaultState
    case Some(b) =>
      match Decode(b)
      case Some(s) => s
      case None => DefaultState
  }

  /** A `Partial<UserState>`: each top-level field either given or absent. */
  datatype UserPatch = UserPatch(name: Option<string>, purchased: Option<seq<string>>,
                                 progress: Option<UserProgress>, loggedIn: Option<bool>)

  /** A patch that gives no field. */
  const EmptyPatch: UserPatch := UserPatch(None, None, None, None)

  function Pick<T>(given: Option<T>, previous: T): T {
    match given
    case Some(v) => v
    case None => previous
  }

  /** `{ ...prev, ...u }`: each field the patch gives replaces the previous
      one whole (no deep merge); each field it leaves out is kept. */
  function Merge(prev: UserState, u: UserPatch): (r: UserState)
    ensures u.name.None? ==> r.name == prev.name
    ensures u.name.Some? ==> r.name == u.name.value
    ensures u.purchased.None? ==> r.purchased == prev.purchased
    ensures u.purchased.Some? ==> r.purchased == u.purchased.value
    ensures u.progress.None? ==> r.progress == prev.progress
    ensures u.progress.Some? ==> r.progress == u.progress.value
    ensures u.loggedIn.None? ==> r.loggedIn == prev.loggedIn
    ensures u.loggedIn.Some? ==> r.loggedIn == u.loggedIn.value
  {
    UserState(Pick(u.name, prev.name), Pick(u.purchased, prev.purchased),
              Pick(u.progress, prev.progress), Pick(u.loggedIn, prev.loggedIn))
  }

  /** `{ ...u, ...v }`: the fields of `v`, and of `u` where `v` gives none. */
  function Then(u: UserPatch, v: UserPatch): UserPatch {
    UserPatch(if v.name.Some? then v.name else u.name,
              if v.purchased.Some? then v.purchased else u.purchased,
              if v.progress.Some? then v.progress else u.progress,
              if v.loggedIn.Some? then v.loggedIn else u.loggedIn)
  }

  /** Merging is idempotent, the empty patch changes nothing, and two merges
      in a row are one merge of the combined patch, so updates issued one
      after another compose. */
  lemma MergeLaws(s: UserState, u: UserPatch, v: UserPatch)
    ensures Merge(s, EmptyPatch) == s
    ensures Merge(Merge(s, u), u) == Merge(s, u)
    ensures Merge(Merge(s, u), v) == Merge(s, Then(u, v))
  {
  }

  /** The store: the current state and the persisted slot. */
  class Store {
    var state: UserState
    var stored: Option<Blob>

    /** Start-up: reads the slot without writing it. */
    constructor (slot: Option<Blob>)
      ensures state == Load(slot)
      ensures stored == slot
    {
      state := Load(slot);
      stored := slot;
    }

    /** `patch`: merges over the latest state and persists the whole result,
        so that a reload would read back exactly the new state. */
    method Patch(u: UserPatch)
      modifies this
      ensures state == Merge(old(state), u)
      ensures stored == Some(Encode(state))
      ensures Load(stored) == state
    {
      state := Merge(state, u);
      stored := Some(Encode(state));
    }

    /** The "complete lesson" button: a `progress` patch built by `markComplete`. */
    method MarkComplete(c: Course, l: Lesson)
      modifies this
      ensures state == old(state).(progress := LearningCenter.MarkComplete(old(state).progress, c, l))
      ensures Load(stored) == state
    {
      Patch(UserPatch(None, None, Some(LearningCenter.MarkComplete(state.progress, c, l)), None));
    }

    /** The "continue" buttons: a `progress` patch built by `jumpTo`. */
    method JumpTo(c: Course, l: Lesson)
      modifies this
      ensures state == old(state).(progress := LearningCenter.JumpTo(old(state).progress, c, l))
      ensures Load(stored) == state
    {
      Patch(UserPatch(None, None, Some(LearningCenter.JumpTo(state.progress, c, l)), None));
    }

    /** The log-out button: clears only the login flag. */
    method LogOut()
      modifies this
      ensures state == old(state).(loggedIn := false)
      ensures Load(stored) == state
    {
      Patch(UserPatch(None, None, None, Some(false)));
    }

    /** The demo log-in button: logs in and restores the demo purchases;
        name and progress are kept. */
    method DemoLogIn()
      modifies this
      ensures state == old(state).(loggedIn := true, purchased := Catalog.DemoPurchased)
      ensures Load(stored) == state
    {
      Patch(UserPatch(None, Some(Catalog.DemoPurchased), None, Some(true)));
    }
  }

  /** A fresh demo user who completes a lesson and restarts the page finds the
      lesson completed and bookmarked, and the rest of the default state. */
  method RestartAfterMark(c: Course, l: Lesson) returns (reloaded: UserState)
    ensures reloaded.name == DefaultState.name && reloaded.loggedIn
    ensures reloaded.purchased == Catalog.DemoPurchased
    ensures reloaded.progress.Keys == {c.key}
    ensures reloaded.progress[c.key] == ProgressRecord(Some([l.id]), Some(l.id))
  {
    var store := new Store(None);
    store.MarkComplete(c, l);
    var again := new Store(store.stored);
    reloaded := again.state;
    LearningCenter.AddToDistinct([], l.id);
  }
}
