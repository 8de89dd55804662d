// Splitting a batch into ordering groups: messages sharing a key form one group in
// batch order, keyless messages stand alone.

module Grouping {
  import opened Wrappers
  import opened Rows

  function WithKey(ms: seq<Message>, key: Option<Key>): seq<Message> {
    if ms == [] then []
    else
      var n := |ms| - 1;
      WithKey(ms[..n], key) + if ms[n].key == key then [ms[n]] else []
  }

  // `m` opens a group: it has no key, or is the first with its key.
  predicate Opens(before: seq<Message>, m: Message) {
    m.key.None? || WithKey(before, m.key) == []
  }

  // The positions of the messages that open a group.
  function Leaders(ms: seq<Message>): (r: seq<nat>)
    ensures forall g :: 0 <= g < |r| ==> r[g] < |ms|
  {
    if ms == [] then []
    else
      var n := |ms| - 1;
      Leaders(ms[..n]) + if Opens(ms[..n], ms[n]) then [n] else []
  }

  function GroupAt(ms: seq<Message>, i: nat): seq<Message>
    requires i < |ms|
  {
    if ms[i].key.None? then [ms[i]] else WithKey(ms, ms[i].key)
  }

  function GroupsOf(ms: seq<Message>, leaders: seq<nat>): (r: seq<seq<Message>>)
    requires forall g :: 0 <= g < |leaders| ==> leaders[g] < |ms|
    ensures |r| == |leaders|
    ensures forall g :: 0 <= g < |r| ==> r[g] == GroupAt(ms, leaders[g])
  {
    if leaders == [] then []
    else
      var n := |leaders| - 1;
      GroupsOf(ms, leaders[..n]) + [GroupAt(ms, leaders[n])]
  }

  // One group per leader, in order of first appearance.
  function Groups(ms: seq<Message>): (r: seq<seq<Message>>)
    ensures |r| == |Leaders(ms)|
    ensures forall g :: 0 <= g < |r| ==> r[g] == GroupAt(ms, Leaders(ms)[g])
  {
    GroupsOf(ms, Leaders(ms))
  }

  // ------------------------------------------------------ what the groups are

  predicate Increasing(s: seq<nat>) {
    forall i, j :: 0 <= i < j < |s| ==> s[i] < s[j]
  }

  lemma {:induction false} NoneWithKey(ms: seq<Message>, key: Option<Key>)
    ensures WithKey(ms, key) == [] <==> forall j :: 0 <= j < |ms| ==> ms[j].key != key
  {
    if ms != [] {
      NoneWithKey(ms[..|ms| - 1], key);
    }
  }

  lemma KeyAbsent(ms: seq<Message>, i: nat, key: Option<Key>)
    requires WithKey(ms, key) == [] && i < |ms|
    ensures ms[i].key != key
  {
    NoneWithKey(ms, key);
  }

  // Position `i` has no earlier message of its key.
  predicate Leads(ms: seq<Message>, i: nat)
    requires i < |ms|
  {
    ms[i].key.None? || forall j :: 0 <= j < i ==> ms[j].key != ms[i].key
  }

  lemma LeaderIsFirst(ms: seq<Message>)
    requires ms != []
    ensures
      var n := |ms| - 1;
      Opens(ms[..n], ms[n]) <==> Leads(ms, n)
  {
    var n := |ms| - 1;
    NoneWithKey(ms[..n], ms[n].key);
    assert forall j :: 0 <= j < n ==> ms[..n][j] == ms[j];
  }

  lemma {:induction false} LeadersIncrease(ms: seq<Message>)
    ensures Increasing(Leaders(ms))
  {
    if ms != [] {
      LeadersIncrease(ms[..|ms| - 1]);
    }
  }

  lemma {:induction false} LeaderLeads(ms: seq<Message>, i: nat)
    requires i < |ms|
    ensures i in Leaders(ms) <==> Leads(ms, i)
  {
    var n := |ms| - 1;
    var before := ms[..n];
    if i < n {
      LeaderLeads(before, i);
      assert Leads(before, i) <==> Leads(ms, i);
    } else {
      LeaderIsFirst(ms);
      assert n !in Leaders(before);
    }
  }

  lemma LeadersAre(ms: seq<Message>)
    ensures Increasing(Leaders(ms))
    ensures forall i :: 0 <= i < |ms| ==> (i in Leaders(ms) <==> Leads(ms, i))
  {
    LeadersIncrease(ms);
    forall i | 0 <= i < |ms| ensures i in Leaders(ms) <==> Leads(ms, i) {
      LeaderLeads(ms, i);
    }
  }

  // `positions` picks the messages of `group` out of `ms`, in order.
  predicate Picks(ms: seq<Message>, positions: seq<nat>, group: seq<Message>) {
    && |positions| == |group| && Increasing(positions)
    && forall x :: 0 <= x < |positions| ==> positions[x] < |ms| && ms[positions[x]] == group[x]
  }

  function PositionsOf(ms: seq<Message>, key: Option<Key>): seq<nat> {
    if ms == [] then []
    else
      var n := |ms| - 1;
      PositionsOf(ms[..n], key) + if ms[n].key == key then [n] else []
  }

  lemma {:induction false} KeyPositions(ms: seq<Message>, key: Option<Key>)
    ensures Picks(ms, PositionsOf(ms, key), WithKey(ms, key))
    ensures forall i :: 0 <= i < |ms| ==> (i in PositionsOf(ms, key) <==> ms[i].key == key)
  {
    if ms != [] {
      var n := |ms| - 1;
      KeyPositions(ms[..n], key);
      var before := PositionsOf(ms[..n], key);
      assert n !in before;
    }
  }

  function GroupPositions(ms: seq<Message>, g: nat): seq<nat>
    requires g < |Groups(ms)|
  {
    var i := Leaders(ms)[g];
    if ms[i].key.None? then [i] else PositionsOf(ms, ms[i].key)
  }

  // Each group is a stable selection of the batch and shares one key; a keyless
  // message is alone in its group.
  lemma GroupIsStable(ms: seq<Message>, g: nat)
    requires g < |Groups(ms)|
    ensures Groups(ms)[g] != [] && Picks(ms, GroupPositions(ms, g), Groups(ms)[g])
    ensures GroupPositions(ms, g)[0] == Leaders(ms)[g]
    ensures forall x, y :: 0 <= x < |Groups(ms)[g]| && 0 <= y < |Groups(ms)[g]| ==>
              Groups(ms)[g][x].key == Groups(ms)[g][y].key
    ensures Groups(ms)[g][0].key.None? ==> |Groups(ms)[g]| == 1
  {
    LeadersAre(ms);
    var i := Leaders(ms)[g];
    assert i in Leaders(ms);
    if ms[i].key.Some? {
      var positions := PositionsOf(ms, ms[i].key);
      KeyPositions(ms, ms[i].key);
      assert i in positions;
      assert positions[0] in positions;
      assert positions[0] <= i;
    }
  }

  // Every message of the batch is in exactly one place of exactly one group.
  lemma EveryPositionOnce(ms: seq<Message>, i: nat) returns (g: nat)
    requires i < |ms|
    ensures g < |Groups(ms)| && i in GroupPositions(ms, g)
    ensures forall h :: 0 <= h < |Groups(ms)| && i in GroupPositions(ms, h) ==> h == g
  {
    LeadersAre(ms);
    var l := FirstWithKey(ms, i);
    assert l in Leaders(ms);
    g :| 0 <= g < |Leaders(ms)| && Leaders(ms)[g] == l;
    KeyPositions(ms, ms[i].key);
    forall h | 0 <= h < |Groups(ms)| && i in GroupPositions(ms, h) ensures h == g {
      var m := Leaders(ms)[h];
      assert m in Leaders(ms);
      KeyPositions(ms, ms[m].key);
      assert m == l;
    }
  }

  lemma FirstWithKey(ms: seq<Message>, i: nat) returns (l: nat)
    requires i < |ms|
    ensures l <= i && Leads(ms, l) && ms[l].key == ms[i].key
    ensures ms[i].key.None? ==> l == i
    ensures ms[i].key.Some? ==>
              forall m :: 0 <= m < |ms| && Leads(ms, m) && ms[m].key == ms[i].key ==> m == l
  {
    l := i;
    while !Leads(ms, l)
      invariant 0 <= l <= i && ms[l].key == ms[i].key && (ms[i].key.None? ==> l == i)
      decreases l
    {
      var j :| 0 <= j < l && ms[j].key == ms[l].key;
      l := j;
    }
  }

  // Groups appear in the order of their first messages.
  lemma OrderOfAppearance(ms: seq<Message>, g: nat, h: nat)
    requires g < h < |Groups(ms)|
    ensures GroupPositions(ms, g) != [] && GroupPositions(ms, h) != []
    ensures GroupPositions(ms, g)[0] < GroupPositions(ms, h)[0]
  {
    LeadersAre(ms);
    GroupIsStable(ms, g);
    GroupIsStable(ms, h);
  }

  function Flatten(groups: seq<seq<Message>>): seq<Message> {
    if groups == [] then []
    else Flatten(groups[..|groups| - 1]) + groups[|groups| - 1]
  }

  // At most one group has a given key.
  lemma KeyHasOneGroup(ms: seq<Message>, g: nat, h: nat)
    requires g < |Groups(ms)| && h < |Groups(ms)|
    requires ms[Leaders(ms)[g]].key.Some?
    requires ms[Leaders(ms)[g]].key == ms[Leaders(ms)[h]].key
    ensures g == h
  {
    LeadersAre(ms);
    var i, j := Leaders(ms)[g], Leaders(ms)[h];
    assert i in Leaders(ms) && j in Leaders(ms);
  }

  lemma LeadersSnoc(ms: seq<Message>, m: Message)
    ensures Leaders(ms + [m]) == Leaders(ms) + if Opens(ms, m) then [|ms|] else []
  {
    var all := ms + [m];
    assert all != [] && |all| - 1 == |ms| && all[..|ms|] == ms && all[|ms|] == m;
  }

  lemma WithKeySnoc(ms: seq<Message>, m: Message, key: Option<Key>)
    ensures WithKey(ms + [m], key) == WithKey(ms, key) + if m.key == key then [m] else []
  {
    assert (ms + [m])[..|ms|] == ms;
  }

  lemma GroupSnoc(ms: seq<Message>, m: Message, i: nat)
    requires i < |ms|
    ensures GroupAt(ms + [m], i) ==
            if m.key.Some? && ms[i].key == m.key then GroupAt(ms, i) + [m] else GroupAt(ms, i)
  {
    WithKeySnoc(ms, m, ms[i].key);
  }

  lemma OldGroupStays(ms: seq<Message>, m: Message, g: nat)
    requires Opens(ms, m) && g < |Leaders(ms)|
    ensures GroupAt(ms + [m], Leaders(ms)[g]) == GroupAt(ms, Leaders(ms)[g])
  {
    GroupSnoc(ms, m, Leaders(ms)[g]);
    if m.key.Some? {
      KeyAbsent(ms, Leaders(ms)[g], m.key);
    }
  }

  lemma NewGroup(ms: seq<Message>, m: Message)
    requires Opens(ms, m)
    ensures GroupAt(ms + [m], |ms|) == [m]
  {
    WithKeySnoc(ms, m, m.key);
  }

  // A message without a key, or the first with its key, opens a new group.
  lemma GroupsOpen(ms: seq<Message>, m: Message)
    requires Opens(ms, m)
    ensures Leaders(ms + [m]) == Leaders(ms) + [|ms|]
    ensures Groups(ms + [m]) == Groups(ms) + [[m]]
  {
    var all, leaders := ms + [m], Leaders(ms);
    LeadersSnoc(ms, m);
    NewGroup(ms, m);
    forall g | 0 <= g < |leaders| ensures GroupAt(all, leaders[g]) == GroupAt(ms, leaders[g]) {
      OldGroupStays(ms, m, g);
    }
    GroupsOfSame(ms, all, leaders);
    assert Leaders(all)[..|leaders|] == leaders;
  }

  lemma {:induction false} GroupsOfSame(ms: seq<Message>, all: seq<Message>, leaders: seq<nat>)
    requires |ms| <= |all|
    requires forall g :: 0 <= g < |leaders| ==>
      leaders[g] < |ms| && GroupAt(all, leaders[g]) == GroupAt(ms, leaders[g])
    ensures GroupsOf(all, leaders) == GroupsOf(ms, leaders)
  {
  }

  lemma GroupOfKey(ms: seq<Message>, m: Message) returns (g: nat)
    requires !Opens(ms, m)
    ensures g < |Leaders(ms)| && ms[Leaders(ms)[g]].key == m.key
  {
    NoneWithKey(ms, m.key);
    var p :| 0 <= p < |ms| && ms[p].key == m.key;
    var l := FirstWithKey(ms, p);
    LeadersAre(ms);
    assert l in Leaders(ms);
    g :| 0 <= g < |Leaders(ms)| && Leaders(ms)[g] == l;
  }

  // Any other message joins the group of its key, at the end.
  lemma GroupsJoin(ms: seq<Message>, m: Message, g: nat)
    requires g < |Groups(ms)| && m.key.Some? && ms[Leaders(ms)[g]].key == m.key
    ensures Leaders(ms + [m]) == Leaders(ms)
    ensures Groups(ms + [m]) == Groups(ms)[g := Groups(ms)[g] + [m]]
  {
    LeadersSnoc(ms, m);
    var leaders := Leaders(ms);
    NoneWithKey(ms, m.key);
    forall h | 0 <= h < |leaders|
      ensures Groups(ms + [m])[h] == if h == g then Groups(ms)[h] + [m] else Groups(ms)[h]
    {
      GroupSnoc(ms, m, leaders[h]);
      if ms[leaders[h]].key == m.key {
        KeyHasOneGroup(ms, g, h);
      }
    }
  }

  lemma {:induction false} FlattenUpdate(a: seq<seq<Message>>, b: seq<seq<Message>>, g: nat, m: Message)
    requires |a| == |b| && g < |a| && b[g] == a[g] + [m]
    requires forall h :: 0 <= h < |a| && h != g ==> b[h] == a[h]
    ensures multiset(Flatten(b)) == multiset(Flatten(a)) + multiset{m}
    decreases |a|
  {
    var n := |a| - 1;
    var a0, b0 := a[..n], b[..n];
    assert multiset(Flatten(a)) == multiset(Flatten(a0)) + multiset(a[n]);
    assert multiset(Flatten(b)) == multiset(Flatten(b0)) + multiset(b[n]);
    if g == n {
      assert a0 == b0;
      assert multiset(a[n] + [m]) == multiset(a[n]) + multiset{m};
    } else {
      FlattenUpdate(a0, b0, g, m);
    }
  }

  // The groups together are a permutation of the batch.
  lemma {:induction false} GroupsArePermutation(ms: seq<Message>)
    ensures multiset(Flatten(Groups(ms))) == multiset(ms)
  {
    if ms == [] {
      assert Groups(ms) == [];
    } else {
      var n := |ms| - 1;
      var before, m := ms[..n], ms[n];
      assert ms == before + [m];
      GroupsArePermutation(before);
      if Opens(before, m) {
        GroupsOpen(before, m);
        assert Groups(ms)[..|Groups(before)|] == Groups(before);
      } else {
        var g := GroupOfKey(before, m);
        GroupsJoin(before, m, g);
        FlattenUpdate(Groups(before), Groups(ms), g, m);
      }
    }
  }

  // ------------------------------------------------------------ the algorithm

  // `at` tells for each key seen so far which group it has.
  ghost predicate Indexed(ms: seq<Message>, at: map<Key, nat>) {
    && (forall k :: k in at ==> at[k] < |Leaders(ms)| && ms[Leaders(ms)[at[k]]].key == Some(k))
    && (forall k: Key :: k !in at ==> WithKey(ms, Some(k)) == [])
  }

  lemma IndexedOpen(ms: seq<Message>, m: Message, at: map<Key, nat>, at': map<Key, nat>)
    requires Indexed(ms, at) && (m.key.Some? ==> m.key.value !in at)
    requires Leaders(ms + [m]) == Leaders(ms) + [|ms|]
    requires at' == if m.key.Some? then at[m.key.value := |Leaders(ms)|] else at
    ensures Indexed(ms + [m], at')
  {
    LeadersFound(ms, m, at, at');
    OthersAbsent(ms, m, at, at');
  }

  lemma IndexedOpens(ms: seq<Message>, m: Message, at: map<Key, nat>)
    requires Indexed(ms, at) && (m.key.Some? ==> m.key.value !in at)
    ensures Opens(ms, m)
  {
    if m.key.Some? {
      assert m.key == Some(m.key.value);
    }
  }

  lemma LeadersFound(ms: seq<Message>, m: Message, at: map<Key, nat>, at': map<Key, nat>)
    requires forall k :: k in at ==> at[k] < |Leaders(ms)| && ms[Leaders(ms)[at[k]]].key == Some(k)
    requires Leaders(ms + [m]) == Leaders(ms) + [|ms|]
    requires m.key.Some? ==> m.key.value !in at
    requires at' == if m.key.Some? then at[m.key.value := |Leaders(ms)|] else at
    ensures forall k :: k in at' ==>
      at'[k] < |Leaders(ms + [m])| && (ms + [m])[Leaders(ms + [m])[at'[k]]].key == Some(k)
  {
    var all, leaders := ms + [m], Leaders(ms);
    forall k | k in at'
      ensures at'[k] < |Leaders(all)| && all[Leaders(all)[at'[k]]].key == Some(k)
    {
      if m.key == Some(k) {
        assert Leaders(all)[|leaders|] == |ms|;
      } else {
        assert Leaders(all)[at[k]] == leaders[at[k]];
        assert all[leaders[at[k]]] == ms[leaders[at[k]]];
      }
    }
  }

  lemma OthersAbsent(ms: seq<Message>, m: Message, at: map<Key, nat>, at': map<Key, nat>)
    requires Indexed(ms, at) && at.Keys <= at'.Keys && (m.key.Some? ==> m.key.value in at')
    ensures forall k: Key :: k !in at' ==> WithKey(ms + [m], Some(k)) == []
  {
    forall k: Key | k !in at' ensures WithKey(ms + [m], Some(k)) == [] {
      WithKeySnoc(ms, m, Some(k));
    }
  }

  lemma IndexedJoin(ms: seq<Message>, m: Message, at: map<Key, nat>)
    requires Indexed(ms, at) && m.key.Some? && m.key.value in at
    ensures
      var g := at[m.key.value];
      Groups(ms + [m]) == Groups(ms)[g := Groups(ms)[g] + [m]]
    ensures Indexed(ms + [m], at)
  {
    GroupsJoin(ms, m, at[m.key.value]);
    OthersAbsent(ms, m, at, at);
  }

  // A Python list: the same object may be reached from the dictionary of groups and
  // from the result.
  class MessageList {
    var items: seq<Message>

    constructor (items: seq<Message>)
      ensures this.items == items
    {
      this.items := items;
    }
  }

  // The list objects hold the groups `shape`; no object is listed twice, and the
  // dictionary refers to the same objects.
  ghost predicate Mirrors(order: seq<MessageList>, shape: seq<seq<Message>>,
                          groups: map<Key, MessageList>, at: map<Key, nat>)
    reads order
  {
    && (forall g, h :: 0 <= g < h < |order| ==> order[g] != order[h])
    && |order| == |shape| && (forall g :: 0 <= g < |order| ==> order[g].items == shape[g])
    && groups.Keys == at.Keys
    && forall k :: k in groups ==> at[k] < |order| && order[at[k]] == groups[k]
  }

  // The groups after one more message, and where its key is found.
  ghost function Placed(shape: seq<seq<Message>>, at: map<Key, nat>, m: Message): seq<seq<Message>>
    requires forall k :: k in at ==> at[k] < |shape|
  {
    if m.key.Some? && m.key.value in at
    then shape[at[m.key.value] := shape[at[m.key.value]] + [m]]
    else shape + [[m]]
  }

  ghost function PlacedAt(shape: seq<seq<Message>>, at: map<Key, nat>, m: Message): map<Key, nat> {
    if m.key.Some? && m.key.value !in at then at[m.key.value := |shape|] else at
  }

  lemma IndexedEmpty()
    ensures Groups([]) == [] && Indexed([], map[])
  {
  }

  lemma IndexedNext(ms: seq<Message>, m: Message, at: map<Key, nat>)
    requires Indexed(ms, at)
    ensures Groups(ms + [m]) == Placed(Groups(ms), at, m)
    ensures Indexed(ms + [m], PlacedAt(Groups(ms), at, m))
  {
    if m.key.Some? && m.key.value in at {
      IndexedJoin(ms, m, at);
    } else {
      IndexedOpens(ms, m, at);
      GroupsOpen(ms, m);
      IndexedOpen(ms, m, at, PlacedAt(Groups(ms), at, m));
    }
  }

  // The groups, and where each key is found, built up message by message.
  ghost function Arranged(ms: seq<Message>): (r: (seq<seq<Message>>, map<Key, nat>))
    ensures forall k :: k in r.1 ==> r.1[k] < |r.0|
  {
    if ms == [] then ([], map[])
    else
      var n := |ms| - 1;
      var (shape, at) := Arranged(ms[..n]);
      (Placed(shape, at, ms[n]), PlacedAt(shape, at, ms[n]))
  }

  lemma {:induction false} ArrangedIsGroups(ms: seq<Message>)
    ensures Arranged(ms).0 == Groups(ms) && Indexed(ms, Arranged(ms).1)
  {
    if ms == [] {
      IndexedEmpty();
    } else {
      var n := |ms| - 1;
      var before, m := ms[..n], ms[n];
      ArrangedIsGroups(before);
      assert ms == before + [m];
      IndexedNext(before, m, Arranged(before).1);
    }
  }

  // The body of the grouping loop.
  method Place(message: Message, groups: map<Key, MessageList>, order: seq<MessageList>,
               ghost shape: seq<seq<Message>>, ghost at: map<Key, nat>)
    returns (groups': map<Key, MessageList>, order': seq<MessageList>)
    requires Mirrors(order, shape, groups, at)
    modifies set l | l in order
    ensures forall l :: l in order' ==> l in order || fresh(l)
    ensures Mirrors(order', Placed(shape, at, message), groups', PlacedAt(shape, at, message))
  {
    if message.key == None {
      var single := new MessageList([message]);
      return groups, order + [single];
    }
    var key := message.key.value;
    groups', order' := groups, order;
    var group: MessageList;
    if key in groups {
      group := groups[key];
    } else {
      group := new MessageList([]);
      groups' := groups[key := group];
      order' := order + [group];
    }
    group.items := group.items + [message];
  }

  method GroupByKey(messages: seq<Message>) returns (order: seq<MessageList>)
    ensures forall l :: l in order ==> fresh(l)
    ensures forall g, h :: 0 <= g < h < |order| ==> order[g] != order[h]
    ensures |order| == |Groups(messages)|
    ensures forall g :: 0 <= g < |order| ==> order[g].items == Groups(messages)[g]
  {
    var groups: map<Key, MessageList> := map[];
    order := [];
    for i := 0 to |messages|
      invariant forall l :: l in order ==> fresh(l)
      invariant Mirrors(order, Arranged(messages[..i]).0, groups, Arranged(messages[..i]).1)
    {
      ghost var arranged := Arranged(messages[..i]);
      assert messages[..i + 1][..i] == messages[..i];
      groups, order := Place(messages[i], groups, order, arranged.0, arranged.1);
    }
    assert messages[..|messages|] == messages;
    ArrangedIsGroups(messages);
  }
}
