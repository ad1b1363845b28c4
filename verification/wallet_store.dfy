/** The native session handle table (`WalletStore`, one in Swift and one in
    Kotlin): open wallets are kept in a map from integer handles to sessions,
    and handles are handed out from a counter. Each call runs under the
    store's lock, so every operation is one atomic step here. The two
    platforms differ only in what the counter does at its top: Swift's `Int`
    traps on overflow, Kotlin's `Int` wraps around. */
module WalletStore {
  import opened Optional

  /** A native `Wallet` and `Online` object, known by identity only. */
  type WalletRef = nat
  type OnlineRef = nat

  /** `WalletSession(wallet, online)` */
  datatype Session = Session(wallet: WalletRef, online: Option<OnlineRef>)

  /** The table and the next handle to issue. */
  datatype Store = Store(sessions: map<int, Session>, nextId: int)

  /** Swift `Int` on 64-bit platforms, and Kotlin `Int`. */
  const SWIFT_INT_MAX: int := 0x7fff_ffff_ffff_ffff
  const KOTLIN_INT_MIN: int := -0x8000_0000
  const KOTLIN_INT_MAX: int := 0x7fff_ffff

  /** A fresh store: empty, next handle 1. */
  const EMPTY: Store := Store(map[], 1)

  /** Every live handle was issued before the counter's current value. */
  predicate Valid(st: Store) {
    st.nextId >= 1 && forall id :: id in st.sessions ==> 1 <= id < st.nextId
  }

  /** Swift `create(wallet:)`: `nil` stands for the overflow trap of
      `nextId += 1`, which ends the process. */
  function CreateSwift(st: Store, wallet: WalletRef): (r: Option<(Store, int)>)
    ensures r.None? <==> st.nextId >= SWIFT_INT_MAX
    ensures r.Some? && Valid(st) ==>
      var (st', id) := r.value;
      Valid(st') && id !in st.sessions && st'.nextId > id
      && Get(st', id) == Some(Session(wallet, None))
      && (forall other :: other != id ==> Get(st', other) == Get(st, other))
  {
    if st.nextId >= SWIFT_INT_MAX then None
    else Some((Store(st.sessions[st.nextId := Session(wallet, None)], st.nextId + 1), st.nextId))
  }

  /** Kotlin `Int` addition: results wrap modulo 2^32. */
  function WrapInt32(x: int): (r: int)
    ensures KOTLIN_INT_MIN <= r <= KOTLIN_INT_MAX
    ensures (r - x) % 0x1_0000_0000 == 0
    ensures KOTLIN_INT_MIN <= x <= KOTLIN_INT_MAX ==> r == x
  {
    (x - KOTLIN_INT_MIN) % 0x1_0000_0000 + KOTLIN_INT_MIN
  }

  /** Kotlin `create(wallet)`: `val id = nextId++`. */
  function CreateKotlin(st: Store, wallet: WalletRef): (r: (Store, int))
    ensures r.1 == st.nextId
    ensures Get(r.0, r.1) == Some(Session(wallet, None))
    ensures forall other :: other != r.1 ==> Get(r.0, other) == Get(st, other)
    ensures Valid(st) && st.nextId < KOTLIN_INT_MAX ==> Valid(r.0) && r.1 !in st.sessions && r.0.nextId > r.1
  {
    (Store(st.sessions[st.nextId := Session(wallet, None)], WrapInt32(st.nextId + 1)), st.nextId)
  }

  /** `get(id)`: the session under `id`, if any; the store is not changed
      (the functions here take the store and return nothing else). */
  function Get(st: Store, id: int): (r: Option<Session>)
    ensures r.Some? <==> id in st.sessions
    ensures r.Some? ==> st.sessions[id] == r.value
  {
    if id in st.sessions then Some(st.sessions[id]) else None
  }

  /** `setOnline(id, online)`: `sessions[id]?.online = online`. */
  function SetOnline(st: Store, id: int, online: OnlineRef): (st': Store)
    ensures st'.nextId == st.nextId
    ensures id !in st.sessions ==> st' == st
    ensures id in st.sessions ==> Get(st', id) == Some(Session(st.sessions[id].wallet, Some(online)))
    ensures forall other :: other != id ==> Get(st', other) == Get(st, other)
    ensures Valid(st) ==> Valid(st')
  {
    if id in st.sessions then
      Store(st.sessions[id := st.sessions[id].(online := Some(online))], st.nextId)
    else
      st
  }

  /** `remove(id)`: drop one entry; removing an absent handle changes nothing. */
  function Remove(st: Store, id: int): (st': Store)
    ensures st'.nextId == st.nextId
    ensures Get(st', id) == None
    ensures id !in st.sessions ==> st' == st
    ensures forall other :: other != id ==> Get(st', other) == Get(st, other)
    ensures Valid(st) ==> Valid(st')
  {
    if id in st.sessions then Store(st.sessions - {id}, st.nextId) else st
  }

  /** `clear()`: empty the table and reset the counter to 1. */
  function Clear(st: Store): (st': Store)
    ensures Valid(st')
    ensures forall id :: Get(st', id) == None
  {
    EMPTY
  }

  /** After `clear`, the next session gets handle 1 again, whichever handles
      were issued before. */
  lemma ClearReissuesHandles(st: Store, w: WalletRef)
    ensures CreateSwift(Clear(st), w) == Some((Store(map[1 := Session(w, None)], 2), 1))
    ensures CreateKotlin(Clear(st), w).1 == 1
  {
  }

  /** One call on the table, as issued through the bridge. */
  datatype Op =
    | CreateOp(wallet: WalletRef)
    | GetOp(id: int)
    | SetOnlineOp(id: int, online: OnlineRef)
    | RemoveOp(id: int)
    | ClearOp

  /** Running calls in order on the Swift store: the final store and the
      handles `create` returned, or `None` when a `create` traps. */
  function RunSwift(st: Store, ops: seq<Op>): Option<(Store, seq<int>)>
    decreases |ops|
  {
    if ops == [] then Some((st, []))
    else
      var step: Option<(Store, seq<int>)> :=
        match ops[0]
        case CreateOp(w) =>
          (match CreateSwift(st, w)
           case None => None
           case Some((st1, id)) => Some((st1, [id])))
        case GetOp(_) => Some((st, []))
        case SetOnlineOp(id, o) => Some((SetOnline(st, id, o), []))
        case RemoveOp(id) => Some((Remove(st, id), []))
        case ClearOp => Some((Clear(st), []));
      match step
      case None => None
      case Some((st1, ids1)) =>
        match RunSwift(st1, ops[1..])
        case None => None
        case Some((st2, ids2)) => Some((st2, ids1 + ids2))
  }

  predicate StrictlyIncreasing(ids: seq<int>) {
    forall i, j :: 0 <= i < j < |ids| ==> ids[i] < ids[j]
  }

  /** Without a `clear`, the handles `create` returns strictly increase, lie
      between the starting and the final counter, and were not live at the
      start; the table stays valid throughout. */
  lemma {:induction false} RunSwiftIssuesIncreasingHandles(st: Store, ops: seq<Op>)
    requires Valid(st)
    requires forall k :: 0 <= k < |ops| ==> !ops[k].ClearOp?
    requires RunSwift(st, ops).Some?
    ensures var (st', ids) := RunSwift(st, ops).value;
      Valid(st') && st.nextId <= st'.nextId && StrictlyIncreasing(ids)
      && (forall k :: 0 <= k < |ids| ==> st.nextId <= ids[k] < st'.nextId && ids[k] !in st.sessions)
    decreases |ops|
  {
    if ops != [] {
      var st1: Store, ids1: seq<int>;
      match ops[0] {
        case CreateOp(w) =>
          var created := CreateSwift(st, w).value;
          st1, ids1 := created.0, [created.1];
        case GetOp(_) =>
          st1, ids1 := st, [];
        case SetOnlineOp(id, o) =>
          st1, ids1 := SetOnline(st, id, o), [];
        case RemoveOp(id) =>
          st1, ids1 := Remove(st, id), [];
      }
      assert Valid(st1) && st.nextId <= st1.nextId;
      assert forall k :: 0 <= k < |ids1| ==> st.nextId <= ids1[k] < st1.nextId && ids1[k] !in st.sessions;
      assert forall k :: 0 <= k < |ops[1..]| ==> !ops[1..][k].ClearOp? by {
        forall k | 0 <= k < |ops[1..]| ensures !ops[1..][k].ClearOp? {
          assert ops[1..][k] == ops[k + 1];
        }
      }
      RunSwiftIssuesIncreasingHandles(st1, ops[1..]);
    }
  }

  /** Kotlin's counter wraps: from the largest `Int`, one `create` issues that
      handle and the next one issues a negative handle. */
  lemma KotlinCounterWraps(st: Store, w1: WalletRef, w2: WalletRef)
    requires st.nextId == KOTLIN_INT_MAX
    ensures CreateKotlin(st, w1).1 == KOTLIN_INT_MAX
    ensures CreateKotlin(CreateKotlin(st, w1).0, w2).1 == KOTLIN_INT_MIN
  {
  }

  /** Swift's counter stops instead: at the largest `Int`, `create` traps. */
  lemma SwiftCounterTraps(st: Store, w: WalletRef)
    requires st.nextId == SWIFT_INT_MAX
    ensures CreateSwift(st, w).None?
  {
  }
}
