/** What socket_udp/server/clientinfo_list is for: the address registered last
    for an ID, with earlier ones behind it. */
module RegistrySpec {
  import opened Common

  type EndId = int
  datatype SockAddr = SockAddr(ip: nat, port: nat)
  datatype Registration = Registration(id: EndId, addr: SockAddr)

  /** The first match from the head of the list, where the newest entry is. */
  function Lookup(registry: seq<Registration>, id: EndId): Option<SockAddr> {
    if registry == [] then None
    else if registry[0].id == id then Some(registry[0].addr)
    else Lookup(registry[1..], id)
  }

  /** Registrations only ever go to the front, so an older list is a suffix. */
  ghost predicate Older(known: seq<Registration>, registry: seq<Registration>) {
    |known| <= |registry| && registry[|registry| - |known|..] == known
  }

  lemma OlderStep(known: seq<Registration>, registry: seq<Registration>, r: Registration)
    requires Older(known, registry)
    ensures Older(known, [r] + registry)
  {
    var longer := [r] + registry;
    assert longer[|longer| - |known|..] == registry[|registry| - |known|..];
  }

  lemma {:induction false} OlderLookup(known: seq<Registration>, registry: seq<Registration>, id: EndId)
    requires Older(known, registry) && Lookup(known, id).Some?
    ensures Lookup(registry, id).Some?
  {
    if |known| < |registry| {
      var rest := registry[1..];
      assert rest[|rest| - |known|..] == registry[|registry| - |known|..];
      OlderLookup(known, rest, id);
    } else {
      assert registry == known;
    }
  }

  /** Lookup returns the newest registration of the ID and no other. */
  lemma {:induction false} LookupIsNewest(registry: seq<Registration>, id: EndId)
    ensures Lookup(registry, id).Some? <==> exists j :: 0 <= j < |registry| && registry[j].id == id
    ensures Lookup(registry, id).Some? ==>
              exists j :: 0 <= j < |registry| && registry[j] == Registration(id, Lookup(registry, id).value) &&
                          forall i :: 0 <= i < j ==> registry[i].id != id
  {
    if registry != [] {
      if registry[0].id == id {
        assert registry[0] == Registration(id, Lookup(registry, id).value);
      } else {
        var rest := registry[1..];
        LookupIsNewest(rest, id);
        if Lookup(rest, id).Some? {
          var j :| 0 <= j < |rest| && rest[j] == Registration(id, Lookup(rest, id).value) &&
                   forall i :: 0 <= i < j ==> rest[i].id != id;
          assert registry[j + 1] == rest[j];
          assert forall i :: 0 < i < j + 1 ==> registry[i] == rest[i - 1];
        } else {
          assert forall j :: 0 < j < |registry| ==> registry[j] == rest[j - 1];
        }
      }
    }
  }

  /** The list without the first entry of the ID. */
  function WithoutNewest(registry: seq<Registration>, id: EndId): seq<Registration> {
    if registry == [] then []
    else if registry[0].id == id then registry[1..]
    else [registry[0]] + WithoutNewest(registry[1..], id)
  }

  lemma {:induction false} WithoutNewestAt(registry: seq<Registration>, id: EndId, k: nat)
    requires k < |registry| && registry[k].id == id && forall i :: 0 <= i < k ==> registry[i].id != id
    ensures WithoutNewest(registry, id) == registry[..k] + registry[k + 1..]
    ensures Lookup(registry, id) == Some(registry[k].addr)
  {
    if k > 0 {
      var rest := registry[1..];
      WithoutNewestAt(rest, id, k - 1);
      assert registry[..k] + registry[k + 1..] == [registry[0]] + (rest[..k - 1] + rest[k..]);
    }
  }

  lemma {:induction false} LookupMisses(registry: seq<Registration>, id: EndId)
    requires forall i :: 0 <= i < |registry| ==> registry[i].id != id
    ensures Lookup(registry, id) == None
  {
    if registry != [] {
      LookupMisses(registry[1..], id);
    }
  }

  // ------------------------------------------------ the registry as stacks, per ID

  type Stacks = map<EndId, seq<SockAddr>>

  datatype Op = Add(id: EndId, addr: SockAddr) | Delete(id: EndId) | Get(id: EndId)

  function Stack(m: Stacks, id: EndId): seq<SockAddr> {
    if id in m then m[id] else []
  }

  function After(m: Stacks, op: Op): Stacks {
    match op
    case Add(id, addr) => m[id := [addr] + Stack(m, id)]
    case Delete(id) => if Stack(m, id) == [] then m else m[id := Stack(m, id)[1..]]
    case Get(_) => m
  }

  function Top(m: Stacks, id: EndId): Option<SockAddr> {
    if Stack(m, id) == [] then None else Some(Stack(m, id)[0])
  }

  /** The answers to the Gets of a sequence of calls. */
  function Answers(m: Stacks, ops: seq<Op>): seq<Option<SockAddr>>
    decreases |ops|
  {
    if ops == [] then []
    else (if ops[0].Get? then [Top(m, ops[0].id)] else []) + Answers(After(m, ops[0]), ops[1..])
  }

  /** Only IDs that are present are deleted. */
  predicate DeletesPresent(m: Stacks, ops: seq<Op>)
    decreases |ops|
  {
    ops == [] || ((ops[0].Delete? ==> Stack(m, ops[0].id) != []) && DeletesPresent(After(m, ops[0]), ops[1..]))
  }

  lemma AnswersStep(done: seq<Option<SockAddr>>, m: Stacks, ops: seq<Op>, i: nat)
    requires i < |ops|
    ensures done + Answers(m, ops[i..]) ==
            (if ops[i].Get? then done + [Top(m, ops[i].id)] else done) + Answers(After(m, ops[i]), ops[i + 1..])
    ensures DeletesPresent(m, ops[i..]) ==>
              (ops[i].Delete? ==> Stack(m, ops[i].id) != []) && DeletesPresent(After(m, ops[i]), ops[i + 1..])
  {
    assert ops[i..][0] == ops[i] && ops[i..][1..] == ops[i + 1..];
  }

  lemma AgreeOnTop(registry: seq<Registration>, m: Stacks, id: EndId)
    requires Agree(registry, m)
    ensures Lookup(registry, id) == Top(m, id)
  {
    LookupIsTop(registry, id);
    assert Column(registry, id) == Stack(m, id);
  }

  /** The addresses of an ID in the list, newest first. */
  ghost function Column(registry: seq<Registration>, id: EndId): seq<SockAddr> {
    if registry == [] then []
    else (if registry[0].id == id then [registry[0].addr] else []) + Column(registry[1..], id)
  }

  ghost predicate Agree(registry: seq<Registration>, m: Stacks) {
    forall id :: Column(registry, id) == Stack(m, id)
  }

  lemma {:induction false} LookupIsTop(registry: seq<Registration>, id: EndId)
    ensures Lookup(registry, id) == if Column(registry, id) == [] then None else Some(Column(registry, id)[0])
  {
    if registry != [] && registry[0].id != id {
      LookupIsTop(registry[1..], id);
    }
  }

  /** Deleting exposes the registration before, and touches no other ID. */
  lemma {:induction false} DeletePops(registry: seq<Registration>, id: EndId, other: EndId)
    ensures Column(WithoutNewest(registry, id), other) ==
            if other == id && Column(registry, id) != [] then Column(registry, id)[1..] else Column(registry, other)
  {
    if registry != [] && registry[0].id != id {
      var rest := WithoutNewest(registry[1..], id);
      DeletePops(registry[1..], id, other);
      assert ([registry[0]] + rest)[1..] == rest;
    }
  }

  lemma AddAgrees(registry: seq<Registration>, m: Stacks, id: EndId, addr: SockAddr)
    requires Agree(registry, m)
    ensures Agree([Registration(id, addr)] + registry, After(m, Add(id, addr)))
  {
    var longer := [Registration(id, addr)] + registry;
    forall x ensures Column(longer, x) == Stack(After(m, Add(id, addr)), x) {
      assert longer[1..] == registry;
      assert Column(registry, x) == Stack(m, x);
    }
  }

  lemma DeleteAgrees(registry: seq<Registration>, m: Stacks, id: EndId)
    requires Agree(registry, m)
    ensures Agree(WithoutNewest(registry, id), After(m, Delete(id)))
  {
    forall x ensures Column(WithoutNewest(registry, id), x) == Stack(After(m, Delete(id)), x) {
      DeletePops(registry, id, x);
      assert Column(registry, x) == Stack(m, x) && Column(registry, id) == Stack(m, id);
    }
  }

  lemma AgreeAtStart()
    ensures Agree([], map[])
  {
    forall id ensures Column([], id) == Stack(map[], id) {
    }
  }

  /** What the calls do to the list. */
  function ListAfter(registry: seq<Registration>, op: Op): seq<Registration> {
    match op
    case Add(id, addr) => [Registration(id, addr)] + registry
    case Delete(id) => WithoutNewest(registry, id)
    case Get(_) => registry
  }

  /** List and stacks move together, and a lookup in the list finds the top. */
  lemma StepAgrees(registry: seq<Registration>, m: Stacks, op: Op)
    requires Agree(registry, m)
    ensures Agree(ListAfter(registry, op), After(m, op)) && Lookup(registry, op.id) == Top(m, op.id)
  {
    AgreeOnTop(registry, m, op.id);
    match op {
      case Add(id, addr) => AddAgrees(registry, m, id, addr);
      case Delete(id) => DeleteAgrees(registry, m, id);
      case Get(_) =>
    }
  }
}
