/** The reference counts behind `helper::evp_pkey_handle`, on values. Handles and keys are named by numbers. */
module KeyCounts {
  import opened Octets

  /**
   * `handles`: the key each handle holds, if any. `refs`: OpenSSL's count of each key. `frees`: how often
   * each key's count has reached zero. `outside`: the references to each key that no handle holds.
   */
  datatype Store = Store(
    handles: map<nat, Option<nat>>,
    refs: map<nat, nat>,
    frees: map<nat, nat>,
    outside: map<nat, nat>)

  const EMPTY := Store(map[], map[], map[], map[])

  datatype Op =
    | NewKey(k: nat)                        // OpenSSL makes a key, and gives out its one reference
    | ShareOutside(k: nat)                  // whoever has a reference makes another
    | DropOutside(k: nat)                   // or gives one up
    | Default(h: nat)                       // the constructors
    | Adopt(h: nat, key: Option<nat>)
    | CopyOf(h: nat, other: nat)
    | MoveOf(h: nat, other: nat)
    | AssignCopy(h: nat, other: nat)        // the assignments
    | AssignMove(h: nat, other: nat)
    | AssignRaw(h: nat, key: Option<nat>)
    | Destroy(h: nat)

  /** `EVP_PKEY_up_ref` on a key that may be null; `None` is a use after free. */
  function UpRef(s: Store, key: Option<nat>): Option<Store> {
    if key.None? then Some(s)
    else if key.value !in s.refs || s.refs[key.value] == 0 then None
    else Some(s.(refs := s.refs[key.value := s.refs[key.value] + 1]))
  }

  /** `EVP_PKEY_free`. */
  function Free(s: Store, key: Option<nat>): Option<Store> {
    if key.None? then Some(s)
    else if key.value !in s.refs || key.value !in s.frees || s.refs[key.value] == 0 then None
    else
      var n := s.refs[key.value] - 1;
      Some(s.(refs := s.refs[key.value := n],
              frees := if n == 0 then s.frees[key.value := s.frees[key.value] + 1] else s.frees))
  }

  function Hold(s: Store, h: nat, key: Option<nat>): Store {
    s.(handles := s.handles[h := key])
  }

  /** What an operation needs: handles that exist, or do not yet, and references to give away. */
  predicate Allowed(s: Store, op: Op) {
    match op
    case NewKey(k) => k !in s.refs
    case ShareOutside(k) => k in s.outside && s.outside[k] > 0
    case DropOutside(k) => k in s.outside && s.outside[k] > 0
    case Default(h) => h !in s.handles
    case Adopt(h, key) => h !in s.handles && (key.Some? ==> key.value in s.outside && s.outside[key.value] > 0)
    case CopyOf(h, other) => h !in s.handles && other in s.handles
    case MoveOf(h, other) => h !in s.handles && other in s.handles
    case AssignCopy(h, other) => h in s.handles && other in s.handles
    case AssignMove(h, other) => h in s.handles && other in s.handles
    case AssignRaw(h, key) => h in s.handles && (key.Some? ==> key.value in s.refs && Spare(s, h, key.value))
    case Destroy(h) => h in s.handles
  }

  /** A raw key can be assigned if it is alive, and not only through the reference about to be dropped. */
  predicate Spare(s: Store, h: nat, k: nat)
    requires h in s.handles && k in s.refs
  {
    s.refs[k] > if s.handles[h] == Some(k) then 1 else 0
  }

  // The members of `evp_pkey_handle`, statement by statement.

  function Adopted(s: Store, h: nat, key: Option<nat>): Store
    requires key.Some? ==> key.value in s.outside && s.outside[key.value] > 0
  {
    if key.None? then Hold(s, h, None)
    else Hold(s, h, key).(outside := s.outside[key.value := s.outside[key.value] - 1])
  }

  function Copied(s: Store, h: nat, other: nat): Option<Store>
    requires other in s.handles
  {
    UpRef(Hold(s, h, s.handles[other]), s.handles[other])
  }

  function Moved(s: Store, h: nat, other: nat): Store
    requires other in s.handles
  {
    Hold(Hold(s, h, s.handles[other]), other, None)
  }

  function CopyAssigned(s: Store, h: nat, other: nat): Option<Store>
    requires h in s.handles && other in s.handles
  {
    if h == other then Some(s)
    else
      var freed := Free(s, s.handles[h]);
      if freed.None? then None else UpRef(Hold(freed.value, h, s.handles[other]), s.handles[other])
  }

  function MoveAssigned(s: Store, h: nat, other: nat): Option<Store>
    requires h in s.handles && other in s.handles
  {
    if h == other then Some(s)
    else
      var freed := Free(s, s.handles[h]);
      if freed.None? then None else Some(Hold(Hold(freed.value, h, s.handles[other]), other, None))
  }

  function RawAssigned(s: Store, h: nat, key: Option<nat>): Option<Store>
    requires h in s.handles
  {
    var freed := Free(s, s.handles[h]);
    if freed.None? then None else UpRef(Hold(freed.value, h, key), key)
  }

  function Destroyed(s: Store, h: nat): Option<Store>
    requires h in s.handles
  {
    var freed := Free(s, s.handles[h]);
    if freed.None? then None else Some(freed.value.(handles := freed.value.handles - {h}))
  }

  function Exec(s: Store, op: Op): Option<Store>
    requires Allowed(s, op)
  {
    match op
    case NewKey(k) => Some(Store(s.handles, s.refs[k := 1], s.frees[k := 0], s.outside[k := 1]))
    case ShareOutside(k) =>
      var up := UpRef(s, Some(k));
      if up.None? then None else Some(up.value.(outside := s.outside[k := s.outside[k] + 1]))
    case DropOutside(k) =>
      var freed := Free(s, Some(k));
      if freed.None? then None else Some(freed.value.(outside := s.outside[k := s.outside[k] - 1]))
    case Default(h) => Some(Hold(s, h, None))
    case Adopt(h, key) => Some(Adopted(s, h, key))
    case CopyOf(h, other) => Copied(s, h, other)
    case MoveOf(h, other) => Some(Moved(s, h, other))
    case AssignCopy(h, other) => CopyAssigned(s, h, other)
    case AssignMove(h, other) => MoveAssigned(s, h, other)
    case AssignRaw(h, key) => RawAssigned(s, h, key)
    case Destroy(h) => Destroyed(s, h)
  }

  // The balance.

  function Holders(handles: map<nat, Option<nat>>, k: nat): set<nat> {
    set h | h in handles && handles[h] == Some(k)
  }

  /** Every key's count is the handles holding it plus the references outside; it is freed at zero, and only once. */
  ghost predicate Balanced(s: Store) {
    && s.refs.Keys == s.frees.Keys == s.outside.Keys
    && (forall h | h in s.handles && s.handles[h].Some? :: s.handles[h].value in s.refs)
    && (forall k | k in s.refs :: s.refs[k] == |Holders(s.handles, k)| + s.outside[k])
    && (forall k | k in s.refs :: s.frees[k] == if s.refs[k] == 0 then 1 else 0)
  }

  /** How the holders of a key change when one handle changes. */
  lemma HoldersUpdate(handles: map<nat, Option<nat>>, h: nat, key: Option<nat>, k: nat)
    ensures |Holders(handles[h := key], k)|
         == |Holders(handles, k) - {h}| + if key == Some(k) then 1 else 0
    ensures |Holders(handles, k) - {h}|
         == |Holders(handles, k)| - if h in handles && handles[h] == Some(k) then 1 else 0
    ensures Holders(handles - {h}, k) == Holders(handles, k) - {h}
  {
    var others := Holders(handles, k) - {h};
    assert Holders(handles[h := key], k) == if key == Some(k) then others + {h} else others;
  }

  /** A key that a handle holds, or that is referred to from outside, is alive. */
  lemma HeldIsAlive(s: Store, h: nat)
    requires Balanced(s) && h in s.handles && s.handles[h].Some?
    ensures s.handles[h].value in s.refs && s.refs[s.handles[h].value] > 0
  {
    assert h in Holders(s.handles, s.handles[h].value);
  }

  predicate Empty(s: Store, h: nat) {
    h in s.handles ==> s.handles[h] == None
  }

  lemma HoldCounts(s: Store, h: nat, key: Option<nat>)
    requires Empty(s, h)
    ensures forall k | k in s.refs ::
      |Holders(Hold(s, h, key).handles, k)| == |Holders(s.handles, k)| + if key == Some(k) then 1 else 0
  {
    forall k | k in s.refs
      ensures |Holders(Hold(s, h, key).handles, k)| == |Holders(s.handles, k)| + if key == Some(k) then 1 else 0
    {
      HoldersUpdate(s.handles, h, key, k);
    }
  }

  lemma EmptyCounts(s: Store, h: nat)
    requires h in s.handles
    ensures forall k | k in s.refs ::
      |Holders(Hold(s, h, None).handles, k)| == |Holders(s.handles, k)| - if s.handles[h] == Some(k) then 1 else 0
    ensures forall k | k in s.refs ::
      |Holders(s.handles - {h}, k)| == |Holders(s.handles, k)| - if s.handles[h] == Some(k) then 1 else 0
  {
    forall k | k in s.refs
      ensures |Holders(Hold(s, h, None).handles, k)|
           == |Holders(s.handles, k)| - if s.handles[h] == Some(k) then 1 else 0
      ensures |Holders(s.handles - {h}, k)| == |Holders(s.handles, k)| - if s.handles[h] == Some(k) then 1 else 0
    {
      HoldersUpdate(s.handles, h, None, k);
    }
  }

  /** One reference to a key that has some is dropped. */
  lemma FreeCounts(s: Store, key: Option<nat>)
    requires Balanced(s) && (key.Some? ==> key.value in s.refs && s.refs[key.value] > 0)
    ensures Free(s, key).Some?
    ensures var t := Free(s, key).value;
            && t.handles == s.handles && t.outside == s.outside && t.refs.Keys == t.frees.Keys == s.refs.Keys
            && (forall k | k in s.refs :: t.refs[k] == s.refs[k] - if key == Some(k) then 1 else 0)
            && (forall k | k in s.refs :: t.frees[k] == if t.refs[k] == 0 then 1 else 0)
  {
    hide Holders;
  }

  /** A handle that lets go of its key: the count goes down with the handles. */
  lemma LettingGo(s: Store, h: nat)
    requires Balanced(s) && h in s.handles
    ensures Free(s, s.handles[h]).Some?
    ensures var t := Free(s, s.handles[h]).value;
            && Balanced(Hold(t, h, None)) && Balanced(t.(handles := t.handles - {h})) && t.handles == s.handles
            && t.refs.Keys == s.refs.Keys
            && forall k | k in s.refs :: t.refs[k] == s.refs[k] - if s.handles[h] == Some(k) then 1 else 0
  {
    hide Holders, Free, Balanced;
    if s.handles[h].Some? { HeldIsAlive(s, h); }
    FreeCounts(s, s.handles[h]);
    var t := Free(s, s.handles[h]).value;
    EmptyCounts(t, h);
    Rebalances(s, t, h, Hold(t, h, None).handles);
    Rebalances(s, t, h, t.handles - {h});
  }

  /** Counts that went down together with the holders. */
  lemma Rebalances(s: Store, t: Store, h: nat, handles: map<nat, Option<nat>>)
    requires Balanced(s) && h in s.handles && t.outside == s.outside && t.refs.Keys == t.frees.Keys == s.refs.Keys
    requires forall g | g in handles && handles[g].Some? :: g in s.handles && handles[g] == s.handles[g]
    requires forall k | k in s.refs ::
      && t.refs[k] + (if s.handles[h] == Some(k) then 1 else 0) == s.refs[k]
      && t.frees[k] == (if t.refs[k] == 0 then 1 else 0)
      && |Holders(handles, k)| + (if s.handles[h] == Some(k) then 1 else 0) == |Holders(s.handles, k)|
    ensures Balanced(t.(handles := handles))
  {
    hide Holders;
  }

  /** An empty or new handle that takes another reference to a live key. */
  lemma TakingHold(s: Store, h: nat, key: Option<nat>)
    requires Balanced(s) && Empty(s, h) && (key.Some? ==> key.value in s.refs && s.refs[key.value] > 0)
    ensures UpRef(Hold(s, h, key), key).Some? && Balanced(UpRef(Hold(s, h, key), key).value)
  {
    hide Holders;
    HoldCounts(s, h, key);
  }

  /** A reference that changes hands. */
  lemma HandingOver(s: Store, h: nat, other: nat)
    requires Balanced(s) && Empty(s, h) && other in s.handles && other != h
    ensures Balanced(Hold(Hold(s, h, s.handles[other]), other, None))
  {
    hide Holders;
    HoldCounts(s, h, s.handles[other]);
    EmptyCounts(Hold(s, h, s.handles[other]), other);
  }

  lemma HoldTwice(s: Store, h: nat, key: Option<nat>)
    ensures Hold(Hold(s, h, None), h, key) == Hold(s, h, key)
  {
  }

  /** No operation uses a key after it was freed, and every operation keeps the counts right. */
  lemma ExecKeepsBalance(s: Store, op: Op)
    requires Balanced(s) && Allowed(s, op)
    ensures Exec(s, op).Some? && Balanced(Exec(s, op).value)
  {
    hide Balanced;
    match op
    case NewKey(k) => NewKeyKeeps(s, k);
    case ShareOutside(k) => ShareKeeps(s, k);
    case DropOutside(k) => DropKeeps(s, k);
    case Default(h) => TakingHold(s, h, None);
    case Adopt(h, key) => AdoptKeeps(s, h, key);
    case CopyOf(h, other) =>
      if s.handles[other].Some? { HeldIsAlive(s, other); }
      TakingHold(s, h, s.handles[other]);
    case MoveOf(h, other) => HandingOver(s, h, other);
    case AssignCopy(h, other) =>
      if h != other { ReplacingKeeps(s, h, other); }
    case AssignMove(h, other) =>
      if h != other {
        LettingGo(s, h);
        var t := Free(s, s.handles[h]).value;
        HoldTwice(t, h, t.handles[other]);
        HandingOver(Hold(t, h, None), h, other);
      }
    case AssignRaw(h, key) =>
      LettingGo(s, h);
      var t := Free(s, s.handles[h]).value;
      HoldTwice(t, h, key);
      TakingHold(Hold(t, h, None), h, key);
    case Destroy(h) => LettingGo(s, h);
  }

  /** Copy assignment drops the old key first; the copied one, held by the other handle, survives even if the same. */
  lemma ReplacingKeeps(s: Store, h: nat, other: nat)
    requires Balanced(s) && h in s.handles && other in s.handles && h != other
    ensures CopyAssigned(s, h, other).Some? && Balanced(CopyAssigned(s, h, other).value)
  {
    hide Balanced;
    LettingGo(s, h);
    var t := Free(s, s.handles[h]).value;
    HoldTwice(t, h, t.handles[other]);
    if t.handles[other].Some? { HeldIsAlive(Hold(t, h, None), other); }
    TakingHold(Hold(t, h, None), h, t.handles[other]);
  }

  /** Keys that handles hold are alive; a key that two handles hold has two references. */
  lemma HoldersAreCounted(s: Store, h: nat, other: nat)
    requires Balanced(s) && h in s.handles && other in s.handles && h != other
    ensures s.handles[h].Some? ==> s.handles[h].value in s.refs && s.refs[s.handles[h].value] > 0
    ensures s.handles[other].Some? ==>
      s.handles[other].value in s.refs
      && s.refs[s.handles[other].value] > if s.handles[h] == s.handles[other] then 1 else 0
  {
    if s.handles[h].Some? { HeldIsAlive(s, h); }
    if s.handles[other].Some? {
      HeldIsAlive(s, other);
      if s.handles[h] == s.handles[other] {
        var k := s.handles[h].value;
        HoldersUpdate(s.handles, h, None, k);
        assert other in Holders(s.handles, k) - {h};
      }
    }
  }

  lemma NewKeyKeeps(s: Store, k: nat)
    requires Balanced(s) && k !in s.refs
    ensures Balanced(Exec(s, NewKey(k)).value)
  {
    assert Holders(s.handles, k) == {};
  }

  lemma ShareKeeps(s: Store, k: nat)
    requires Balanced(s) && k in s.outside && s.outside[k] > 0
    ensures Exec(s, ShareOutside(k)).Some? && Balanced(Exec(s, ShareOutside(k)).value)
  {
    hide Holders;
  }

  lemma DropKeeps(s: Store, k: nat)
    requires Balanced(s) && k in s.outside && s.outside[k] > 0
    ensures Exec(s, DropOutside(k)).Some? && Balanced(Exec(s, DropOutside(k)).value)
  {
    hide Holders;
  }

  lemma AdoptKeeps(s: Store, h: nat, key: Option<nat>)
    requires Balanced(s) && Allowed(s, Adopt(h, key))
    ensures Balanced(Exec(s, Adopt(h, key)).value)
  {
    hide Holders;
    HoldCounts(s, h, key);
  }

  /** The condition on a raw assignment is exact: without it the key is used after it is freed. */
  lemma RawAssignment(s: Store, h: nat, k: nat)
    requires Balanced(s) && h in s.handles && k in s.refs && s.refs[k] > 0
    ensures RawAssigned(s, h, Some(k)).Some? <==> Spare(s, h, k)
  {
    LettingGo(s, h);
  }

  /** A run of operations, each allowed when it comes. */
  ghost predicate IsRun(ops: seq<Op>, ss: seq<Store>) {
    && |ss| == |ops| + 1 && ss[0] == EMPTY
    && forall i | 0 <= i < |ops| :: Allowed(ss[i], ops[i]) && Exec(ss[i], ops[i]) == Some(ss[i + 1])
  }

  /** A run after which that condition fails: the handle has the only reference to the key it is assigned. */
  lemma FreedBeforeUse(h: nat, k: nat) returns (ops: seq<Op>, ss: seq<Store>)
    ensures IsRun(ops, ss) && ops == [NewKey(k), Adopt(h, Some(k))]
    ensures h in ss[2].handles && k in ss[2].refs && !Spare(ss[2], h, k) && RawAssigned(ss[2], h, Some(k)).None?
  {
    ops := [NewKey(k), Adopt(h, Some(k))];
    var made := Exec(EMPTY, NewKey(k)).value;
    ss := [EMPTY, made, Exec(made, Adopt(h, Some(k))).value];
  }

  /**
   * At every state of every run the count of a key is the handles holding it plus the references outside;
   * the key has been freed once if that is zero, otherwise never; and no allowed operation uses a freed key.
   */
  lemma {:induction false} AlwaysBalanced(ops: seq<Op>, ss: seq<Store>, k: nat)
    requires IsRun(ops, ss) && k <= |ops|
    ensures Balanced(ss[k])
    ensures forall op | Allowed(ss[k], op) :: Exec(ss[k], op).Some?
  {
    hide Exec, Allowed, Balanced;
    if k == 0 {
      NothingIsBalanced();
    } else {
      AlwaysBalanced(ops, ss, k - 1);
      ExecKeepsBalance(ss[k - 1], ops[k - 1]);
    }
    forall op | Allowed(ss[k], op)
      ensures Exec(ss[k], op).Some?
    {
      ExecKeepsBalance(ss[k], op);
    }
  }

  lemma NothingIsBalanced()
    ensures Balanced(EMPTY)
  {
  }

  /** What every handle holds after an operation. */
  function HandlesAfter(s: Store, op: Op): map<nat, Option<nat>>
    requires Allowed(s, op)
  {
    match op
    case NewKey(_) => s.handles
    case ShareOutside(_) => s.handles
    case DropOutside(_) => s.handles
    case Default(h) => s.handles[h := None]
    case Adopt(h, key) => s.handles[h := key]
    case CopyOf(h, other) => s.handles[h := s.handles[other]]
    case MoveOf(h, other) => s.handles[h := s.handles[other]][other := None]
    case AssignCopy(h, other) => s.handles[h := s.handles[other]]
    case AssignMove(h, other) => if h == other then s.handles else s.handles[h := s.handles[other]][other := None]
    case AssignRaw(h, key) => s.handles[h := key]
    case Destroy(h) => s.handles - {h}
  }

  /** Who has which references outside, after it. */
  function OutsideAfter(s: Store, op: Op): map<nat, nat>
    requires Allowed(s, op)
  {
    match op
    case NewKey(k) => s.outside[k := 1]
    case ShareOutside(k) => s.outside[k := s.outside[k] + 1]
    case DropOutside(k) => s.outside[k := s.outside[k] - 1]
    case Adopt(h, key) => if key.None? then s.outside else s.outside[key.value := s.outside[key.value] - 1]
    case _ => s.outside
  }

  lemma CountsOnly(s: Store, key: Option<nat>)
    ensures UpRef(s, key).Some? ==> UpRef(s, key).value.handles == s.handles && UpRef(s, key).value.outside == s.outside
    ensures Free(s, key).Some? ==> Free(s, key).value.handles == s.handles && Free(s, key).value.outside == s.outside
  {
  }

  lemma ExecMoves(s: Store, op: Op)
    requires Allowed(s, op) && Exec(s, op).Some?
    ensures Exec(s, op).value.handles == HandlesAfter(s, op) && Exec(s, op).value.outside == OutsideAfter(s, op)
  {
    hide UpRef, Free;
    match op
    case ShareOutside(k) => CountsOnly(s, Some(k));
    case DropOutside(k) => CountsOnly(s, Some(k));
    case CopyOf(h, other) => CountsOnly(Hold(s, h, s.handles[other]), s.handles[other]);
    case AssignCopy(h, other) =>
      if h == other {
        assert s.handles[h := s.handles[h]] == s.handles;
      } else {
        CountsOnly(s, s.handles[h]);
        CountsOnly(Hold(Free(s, s.handles[h]).value, h, s.handles[other]), s.handles[other]);
      }
    case AssignMove(h, other) => CountsOnly(s, s.handles[h]);
    case AssignRaw(h, key) =>
      CountsOnly(s, s.handles[h]);
      CountsOnly(Hold(Free(s, s.handles[h]).value, h, key), key);
    case Destroy(h) => CountsOnly(s, s.handles[h]);
    case _ =>
  }

  /** An operation moves keys as its name says; with the balance, that settles every count and every free. */
  lemma ExecMeans(s: Store, op: Op)
    requires Balanced(s) && Allowed(s, op)
    ensures Exec(s, op).Some?
    ensures var t := Exec(s, op).value;
            && t.handles == HandlesAfter(s, op) && t.outside == OutsideAfter(s, op)
            && t.refs.Keys == t.outside.Keys
            && forall k | k in t.refs :: t.refs[k] == |Holders(t.handles, k)| + t.outside[k]
  {
    hide Holders, Exec, Allowed, HandlesAfter, OutsideAfter;
    ExecKeepsBalance(s, op);
    ExecMoves(s, op);
  }
}
