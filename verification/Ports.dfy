/**
 The message queues of sartoris/mk/message.c, over the allocation limits of sartoris/mk/salloc.c and
 the page containers of sartoris/mk/containers.c. Structures in memory are maps from slots to their
 fields; a structure leaves its map when it is freed, so nothing can be read from it afterwards.
 */
module Ports {
  import opened Sequences
  import opened Slab

  type Words = w: seq<int> | |w| == 4 witness [0, 0, 0, 0]

  const NULL: Slot := Slot(0, 0)

  datatype Message = Message(sender: int, data: Words, next: Slot)

  datatype Mode = Disabled | PrivLevelOnly | PermRequired | Unrestricted

  datatype Port = Port(first: Slot, last: Slot, total: int, mode: Mode, priv: int)

  datatype Errors = ErrOk | ErrNoMem | ErrNoPermission | ErrPortDisabled | ErrPortFull

  /** What a receiver sees of a message. */
  datatype Letter = Letter(sender: int, data: Words)

  type Messages = map<Slot, Message>
  type PortTable = map<Slot, Port>
  type Queues = map<Slot, seq<Slot>>
  type Owners = map<Slot, Slot>
  type Letterboxes = map<Slot, seq<Letter>>

  // -------------------------------------------------------------- one queue

  function End(q: seq<Slot>): Slot { if q == [] then NULL else q[|q| - 1] }

  /** Following `next` from `first` visits the messages of `q`, in that order, and ends. */
  predicate Links(m: Messages, first: Slot, q: seq<Slot>)
    decreases q
  {
    if q == [] then first == NULL else first == q[0] && first != NULL && first in m && Links(m, m[first].next, q[1..])
  }

  ghost predicate PortOk(m: Messages, p: Port, q: seq<Slot>)
  {
    Links(m, p.first, q) && p.last == End(q) && p.total == |q| && Distinct(q)
  }

  function Letters(m: Messages, q: seq<Slot>): seq<Letter>
  {
    if q == [] then [] else (if q[0] in m then [Letter(m[q[0]].sender, m[q[0]].data)] else []) + Letters(m, q[1..])
  }

  lemma {:induction false} QueueFrame(m: Messages, m': Messages, first: Slot, q: seq<Slot>)
    requires Links(m, first, q) && forall n :: n in q && n in m ==> n in m' && m'[n] == m[n]
    ensures Links(m', first, q) && Letters(m', q) == Letters(m, q)
    decreases q
  {
    if q != [] {
      assert q[0] in q;
      QueueFrame(m, m', m[first].next, q[1..]);
    }
  }

  lemma {:induction false} LettersLength(m: Messages, first: Slot, q: seq<Slot>)
    requires Links(m, first, q)
    ensures |Letters(m, q)| == |q| && forall n :: n in q ==> n in m && n != NULL
    decreases q
  {
    if q != [] {
      LettersLength(m, m[first].next, q[1..]);
      assert forall n :: n in q ==> n == q[0] || n in q[1..];
    }
  }

  /** Memory after a message is linked behind the last one of `q`. */
  function Appended(m: Messages, q: seq<Slot>, n: Slot, x: Message): Messages
  {
    if q != [] && End(q) in m then m[n := x][End(q) := m[End(q)].(next := n)] else m[n := x]
  }

  lemma NoLetters(m: Messages)
    ensures Letters(m, []) == []
  {
  }

  lemma {:induction false} AppendLinks(m: Messages, first: Slot, q: seq<Slot>, n: Slot, x: Message)
    requires Links(m, first, q) && Distinct(q) && n !in q && n != NULL && x.next == NULL
    ensures Links(Appended(m, q, n, x), if q == [] then n else first, q + [n])
    ensures Letters(Appended(m, q, n, x), q + [n]) == Letters(m, q) + [Letter(x.sender, x.data)]
    decreases q
  {
    var m' := Appended(m, q, n, x);
    if |q| == 0 {
      assert [n][1..] == [] && q + [n] == [n];
    } else if |q| == 1 {
      assert (q + [n])[1..] == [n] && [n][1..] == [] && q[1..] == [];
      NoLetters(m);
      NoLetters(m');
      assert Letters(m', [n]) == [Letter(x.sender, x.data)];
    } else {
      assert (q + [n])[1..] == q[1..] + [n] && End(q) == End(q[1..]);
      assert q[0] != End(q);
      AppendLinks(m, m[first].next, q[1..], n, x);
    }
  }

  // -------------------------------------------------------------- all queues

  function Total(ports: PortTable, open: seq<Slot>): int
  {
    if open == [] then 0 else (if open[0] in ports then ports[open[0]].total else 0) + Total(ports, open[1..])
  }

  lemma {:induction false} TotalJoin(ports: PortTable, s: seq<Slot>, t: seq<Slot>)
    ensures Total(ports, s + t) == Total(ports, s) + Total(ports, t)
  {
    if s == [] { assert s + t == t; } else {
      assert (s + t)[1..] == s[1..] + t;
      TotalJoin(ports, s[1..], t);
    }
  }

  lemma {:induction false} TotalFrame(ports: PortTable, ports': PortTable, s: seq<Slot>)
    requires forall p :: p in s ==> (p in ports <==> p in ports')
    requires forall p :: p in s && p in ports ==> ports'[p].total == ports[p].total
    ensures Total(ports', s) == Total(ports, s)
  {
    if s != [] {
      var p := s[0];
      assert p in s;
      assert p in ports <==> p in ports';
      TotalFrame(ports, ports', s[1..]);
    }
  }

  /** One port changes; the sum changes by as much. */
  lemma TotalChange(ports: PortTable, open: seq<Slot>, p: Slot, x: Port)
    requires p in ports && p in open && Distinct(open)
    ensures Total(ports[p := x], open) == Total(ports, open) + x.total - ports[p].total
  {
    var s, u := CutAt(open, p);
    assert [p][1..] == [];
    TotalJoin(ports, s + [p], u);
    TotalJoin(ports, s, [p]);
    TotalJoin(ports[p := x], s + [p], u);
    TotalJoin(ports[p := x], s, [p]);
    TotalFrame(ports, ports[p := x], s);
    TotalFrame(ports, ports[p := x], u);
  }

  /** Every open port has its queue. */
  ghost predicate ShapesOk(m: Messages, ports: PortTable, queues: Queues)
  {
    queues.Keys == ports.Keys && forall p :: p in ports ==> PortOk(m, ports[p], queues[p])
  }

  /** Every message waits on one port, which `owner` names. */
  ghost predicate OwnersOk(queues: Queues, owner: Owners)
  {
    && (forall p, n :: p in queues && n in queues[p] ==> n in owner && owner[n] == p)
    && (forall n {:trigger owner[n]} :: n in owner ==> owner[n] in queues && n in queues[owner[n]])
  }

  ghost predicate QueuesOk(m: Messages, ports: PortTable, queues: Queues, owner: Owners)
  {
    ShapesOk(m, ports, queues) && OwnersOk(queues, owner) && owner.Keys == m.Keys
  }

  ghost predicate CountsOk(m: Messages, ports: PortTable, open: seq<Slot>)
  {
    && (forall p :: p in open <==> p in ports) && Distinct(open)
    && |m| == Total(ports, open)
  }

  ghost function View(m: Messages, queues: Queues): (v: Letterboxes)
    ensures v.Keys == queues.Keys && forall p :: p in queues ==> v[p] == Letters(m, queues[p])
  {
    map p | p in queues :: Letters(m, queues[p])
  }

  /** Messages that do not wait on `p` are as they were. */
  ghost predicate Untouched(m: Messages, m': Messages, owner: Owners, p: Slot)
  {
    forall n :: n in m && n in owner && owner[n] != p ==> n in m' && m'[n] == m[n]
  }

  /** A change confined to the messages of one queue, and to new ones. */
  lemma Confined(m: Messages, m': Messages, queues: Queues, owner: Owners, p: Slot)
    requires OwnersOk(queues, owner) && p in queues
    requires forall k :: k in m && k !in queues[p] ==> k in m' && m'[k] == m[k]
    ensures Untouched(m, m', owner, p)
  {
  }

  /** Nothing that happens to the messages of `p` shows on another queue. */
  lemma OtherQueues(m: Messages, m': Messages, ports: PortTable, ports': PortTable, queues: Queues, queues': Queues,
                    owner: Owners, p: Slot)
    requires QueuesOk(m, ports, queues, owner) && p in ports
    requires Untouched(m, m', owner, p)
    requires queues'.Keys == ports'.Keys && forall q :: q != p ==> (q in ports' <==> q in ports)
    requires forall q :: q in ports && q != p ==> ports'[q] == ports[q] && queues'[q] == queues[q]
    requires p in ports' ==> PortOk(m', ports'[p], queues'[p])
    ensures ShapesOk(m', ports', queues')
    ensures forall q :: q in ports && q != p ==> View(m', queues')[q] == View(m, queues)[q]
  {
    forall q | q in ports && q != p
      ensures q in ports' && PortOk(m', ports'[q], queues'[q]) && Letters(m', queues'[q]) == Letters(m, queues[q])
    {
      OtherQueue(m, m', ports, queues, owner, p, q);
    }
    hide PortOk, Letters;
  }

  lemma OtherQueue(m: Messages, m': Messages, ports: PortTable, queues: Queues, owner: Owners, p: Slot, q: Slot)
    requires QueuesOk(m, ports, queues, owner) && q in ports && q != p
    requires Untouched(m, m', owner, p)
    ensures PortOk(m', ports[q], queues[q]) && Letters(m', queues[q]) == Letters(m, queues[q])
  {
    hide Links, Letters, Distinct;
    assert forall n :: n in queues[q] ==> n in owner && owner[n] == q;
    QueueFrame(m, m', ports[q].first, queues[q]);
  }

  lemma OwnersUnique(queues: Queues, owner: Owners)
    requires OwnersOk(queues, owner)
    ensures forall n :: n in owner <==> exists p :: p in queues && n in queues[p]
    ensures forall p, q, n :: p in queues && q in queues && n in queues[p] && n in queues[q] ==> p == q
  {
    forall n | n in owner ensures exists p :: p in queues && n in queues[p] {
      assert owner[n] in queues && n in queues[owner[n]];
    }
    forall p, q, n | p in queues && q in queues && n in queues[p] && n in queues[q] ensures p == q {
      assert owner[n] == p && owner[n] == q;
    }
  }

  lemma AddOwner(queues: Queues, owner: Owners, p: Slot, n: Slot)
    requires OwnersOk(queues, owner) && p in queues && n !in owner
    ensures OwnersOk(queues[p := queues[p] + [n]], owner[n := p])
  {
    assert forall k :: k in queues[p] + [n] <==> k in queues[p] || k == n;
  }

  lemma DropOwner(queues: Queues, owner: Owners, p: Slot)
    requires OwnersOk(queues, owner) && p in queues && queues[p] != [] && Distinct(queues[p])
    ensures OwnersOk(queues[p := queues[p][1..]], owner - {queues[p][0]})
  {
    var q, rest := queues[p], queues[p][1..];
    var queues', owner' := queues[p := rest], owner - {q[0]};
    assert q == [q[0]] + rest;
    assert forall k :: k in q <==> k == q[0] || k in rest;
    assert q[0] !in rest && q[0] in q;
    assert q[0] in queues[p] && owner[q[0]] == p;
    hide Distinct;
    forall r, n | r in queues' && n in queues'[r] ensures n in owner' && owner'[n] == r {
      assert n in queues[r];
      assert n != q[0];
    }
    forall n | n in owner' ensures owner'[n] in queues' && n in queues'[owner'[n]] {
      assert n in queues[owner[n]];
    }
  }

  lemma AddKey<T>(m: map<Slot, T>, n: Slot, x: T)
    requires n !in m
    ensures |m[n := x]| == |m| + 1
  {
    assert m[n := x].Keys == m.Keys + {n};
    assert |m[n := x].Keys| == |m.Keys| + 1;
  }

  lemma DropKey<T>(m: map<Slot, T>, n: Slot)
    requires n in m
    ensures |m - {n}| == |m| - 1
  {
    assert (m - {n}).Keys == m.Keys - {n};
    assert |(m - {n}).Keys| == |m.Keys| - 1;
  }

  /** A new message at the end of a queue (lines 594-607). */
  lemma PutNode(m: Messages, ports: PortTable, queues: Queues, owner: Owners, p: Slot, n: Slot, x: Message, port': Port)
    requires QueuesOk(m, ports, queues, owner) && p in ports && n !in m && n != NULL && x.next == NULL
    requires port'.first == (if queues[p] == [] then n else ports[p].first) && port'.last == n
    requires port'.total == ports[p].total + 1
    ensures var m', queues' := Appended(m, queues[p], n, x), queues[p := queues[p] + [n]];
      && QueuesOk(m', ports[p := port'], queues', owner[n := p])
      && View(m', queues') == View(m, queues)[p := View(m, queues)[p] + [Letter(x.sender, x.data)]]
      && |m'| == |m| + 1
  {
    hide Links, Letters, Distinct, Appended, View, End, PortOk, OwnersOk;
    var m', queues' := Appended(m, queues[p], n, x), queues[p := queues[p] + [n]];
    PutShapes(m, ports, queues, owner, p, n, x, port');
    hide ShapesOk;
    AddOwner(queues, owner, p, n);
    OneBox(View(m, queues), View(m', queues'), p);
  }

  lemma PutShapes(m: Messages, ports: PortTable, queues: Queues, owner: Owners,
                  p: Slot, n: Slot, x: Message, port': Port)
    requires QueuesOk(m, ports, queues, owner) && p in ports && n !in m && n != NULL && x.next == NULL
    requires port'.first == (if queues[p] == [] then n else ports[p].first) && port'.last == n
    requires port'.total == ports[p].total + 1
    ensures var m' := Appended(m, queues[p], n, x);
      ShapesOk(m', ports[p := port'], queues[p := queues[p] + [n]]) && m'.Keys == m.Keys + {n} && |m'| == |m| + 1
    ensures var v, v' := View(m, queues), View(Appended(m, queues[p], n, x), queues[p := queues[p] + [n]]);
      v'[p] == v[p] + [Letter(x.sender, x.data)] && forall q :: q in v && q != p ==> v'[q] == v[q]
  {
    hide Links, Letters, Distinct, Appended, View, End;
    var q, m' := queues[p], Appended(m, queues[p], n, x);
    AppendOk(m, ports[p], q, n, x, port');
    AppendChanges(m, q, n, x);
    Confined(m, m', queues, owner, p);
    hide PortOk, OwnersOk, Untouched;
    OtherQueues(m, m', ports, ports[p := port'], queues, queues[p := q + [n]], owner, p);
  }

  lemma OneBox(v: Letterboxes, v': Letterboxes, p: Slot)
    requires p in v && v'.Keys == v.Keys && forall q :: q in v && q != p ==> v'[q] == v[q]
    ensures v' == v[p := v'[p]]
  {
  }

  lemma AppendOk(m: Messages, port: Port, q: seq<Slot>, n: Slot, x: Message, port': Port)
    requires PortOk(m, port, q) && n !in m && n != NULL && x.next == NULL
    requires port'.first == (if q == [] then n else port.first) && port'.last == n && port'.total == port.total + 1
    ensures PortOk(Appended(m, q, n, x), port', q + [n])
    ensures Letters(Appended(m, q, n, x), q + [n]) == Letters(m, q) + [Letter(x.sender, x.data)]
    ensures q != [] ==> End(q) in q && End(q) in m
  {
    LettersLength(m, port.first, q);
    AppendLinks(m, port.first, q, n, x);
    assert q != [] ==> End(q) in q;
  }

  lemma AppendChanges(m: Messages, q: seq<Slot>, n: Slot, x: Message)
    requires n !in m && (q != [] ==> End(q) in q && End(q) in m)
    ensures var m' := Appended(m, q, n, x);
      m'.Keys == m.Keys + {n} && |m'| == |m| + 1 && forall k :: k in m && k !in q ==> m'[k] == m[k]
  {
    AddKey(m, n, x);
    assert Appended(m, q, n, x).Keys == m[n := x].Keys;
    assert |Appended(m, q, n, x).Keys| == |m[n := x].Keys|;
  }

  /** The first message of a queue goes (lines 631-651). */
  lemma TakeNode(m: Messages, ports: PortTable, queues: Queues, owner: Owners, p: Slot, port': Port)
    requires QueuesOk(m, ports, queues, owner) && p in ports && queues[p] != []
    requires ports[p].first in m && port'.first == m[ports[p].first].next && port'.total == ports[p].total - 1
    requires port'.last == if port'.total == 0 then NULL else ports[p].last
    ensures var n, queues' := ports[p].first, queues[p := queues[p][1..]];
      && QueuesOk(m - {n}, ports[p := port'], queues', owner - {n})
      && View(m, queues)[p] != [] && View(m, queues)[p][0] == Letter(m[n].sender, m[n].data)
      && View(m - {n}, queues') == View(m, queues)[p := View(m, queues)[p][1..]]
      && |m - {n}| == |m| - 1
  {
    hide Links, Letters, Distinct, View, End, PortOk, OwnersOk;
    var n, queues' := ports[p].first, queues[p := queues[p][1..]];
    TakeShapes(m, ports, queues, owner, p, port');
    hide ShapesOk;
    DropOwner(queues, owner, p);
    DropKey(m, n);
    OneBox(View(m, queues), View(m - {n}, queues'), p);
  }

  lemma TakeShapes(m: Messages, ports: PortTable, queues: Queues, owner: Owners, p: Slot, port': Port)
    requires QueuesOk(m, ports, queues, owner) && p in ports && queues[p] != []
    requires ports[p].first in m && port'.first == m[ports[p].first].next && port'.total == ports[p].total - 1
    requires port'.last == if port'.total == 0 then NULL else ports[p].last
    ensures ports[p].first == queues[p][0] && Distinct(queues[p])
    ensures ShapesOk(m - {ports[p].first}, ports[p := port'], queues[p := queues[p][1..]])
    ensures var v, v' := View(m, queues), View(m - {ports[p].first}, queues[p := queues[p][1..]]);
      && v[p] == [Letter(m[ports[p].first].sender, m[ports[p].first].data)] + v'[p]
      && forall q :: q in v && q != p ==> v'[q] == v[q]
  {
    hide Links, Letters, Distinct, View, End;
    var n, q := ports[p].first, queues[p];
    var m' := m - {n};
    TakeOk(m, ports[p], q, port');
    Confined(m, m', queues, owner, p);
    hide PortOk, OwnersOk, Untouched;
    OtherQueues(m, m', ports, ports[p := port'], queues, queues[p := q[1..]], owner, p);
  }

  lemma TakeOk(m: Messages, port: Port, q: seq<Slot>, port': Port)
    requires PortOk(m, port, q) && q != []
    requires port'.first == m[port.first].next && port'.total == port.total - 1
    requires port'.last == if port'.total == 0 then NULL else port.last
    ensures port.first == q[0] && q[0] in q && Distinct(q)
    ensures PortOk(m - {port.first}, port', q[1..])
    ensures Letters(m, q) == [Letter(m[q[0]].sender, m[q[0]].data)] + Letters(m - {port.first}, q[1..])
  {
    var n := q[0];
    assert n !in q[1..];
    LettersLength(m, port'.first, q[1..]);
    QueueFrame(m, m - {n}, port'.first, q[1..]);
  }

  /** A port without messages is opened. */
  lemma AddPort(m: Messages, ports: PortTable, queues: Queues, owner: Owners, p: Slot, x: Port)
    requires QueuesOk(m, ports, queues, owner) && p !in ports
    requires x.first == x.last == NULL && x.total == 0
    ensures QueuesOk(m, ports[p := x], queues[p := []], owner)
    ensures p !in View(m, queues) && View(m, queues[p := []]) == View(m, queues)[p := []]
  {
    hide PortOk, Letters, View, OwnersOk;
    FreshPort(m, x);
    assert ShapesOk(m, ports[p := x], queues[p := []]);
    hide ShapesOk;
    AddQueue(queues, owner, p);
    assert View(m, queues[p := []]) == View(m, queues)[p := []];
  }

  lemma FreshPort(m: Messages, x: Port)
    requires x.first == x.last == NULL && x.total == 0
    ensures PortOk(m, x, []) && Letters(m, []) == []
  {
  }

  lemma AddQueue(queues: Queues, owner: Owners, p: Slot)
    requires OwnersOk(queues, owner) && p !in queues
    ensures OwnersOk(queues[p := []], owner)
  {
  }

  lemma AddOpen(m: Messages, ports: PortTable, open: seq<Slot>, p: Slot, x: Port)
    requires CountsOk(m, ports, open) && p !in ports && x.total == 0
    ensures CountsOk(m, ports[p := x], open + [p])
  {
    TotalJoin(ports[p := x], open, [p]);
    TotalFrame(ports, ports[p := x], open);
    assert [p][1..] == [];
    hide Total;
    assert forall q :: q in open + [p] <==> q in open || q == p;
  }

  /** A port without messages is closed. */
  lemma DropPort(m: Messages, ports: PortTable, queues: Queues, owner: Owners, p: Slot)
    requires QueuesOk(m, ports, queues, owner) && p in ports && queues[p] == []
    ensures QueuesOk(m, ports - {p}, queues - {p}, owner)
    ensures View(m, queues - {p}) == View(m, queues) - {p}
  {
    hide PortOk, Letters, View;
    assert ShapesOk(m, ports - {p}, queues - {p});
    DropQueue(queues, owner, p);
    hide ShapesOk, OwnersOk;
    assert View(m, queues - {p}) == View(m, queues) - {p};
  }

  lemma DropQueue(queues: Queues, owner: Owners, p: Slot)
    requires OwnersOk(queues, owner) && p in queues && queues[p] == []
    ensures OwnersOk(queues - {p}, owner)
  {
    forall n | n in owner ensures owner[n] in queues - {p} && n in queues[owner[n]] {
      assert n in queues[owner[n]];
    }
  }

  lemma DropOpen(m: Messages, ports: PortTable, open: seq<Slot>, p: Slot) returns (open': seq<Slot>)
    requires CountsOk(m, ports, open) && p in ports && ports[p].total == 0
    ensures CountsOk(m, ports - {p}, open')
  {
    hide Total;
    var s, u := CutAt(open, p);
    open' := s + u;
    assert forall q :: q in open' <==> q in s || q in u;
    TotalDrop(ports, s, p, u);
  }

  lemma TotalDrop(ports: PortTable, s: seq<Slot>, p: Slot, u: seq<Slot>)
    requires p in ports && ports[p].total == 0 && p !in s && p !in u
    ensures Total(ports - {p}, s + u) == Total(ports, s + [p] + u)
  {
    TotalJoin(ports, s + [p], u);
    TotalJoin(ports, s, [p]);
    TotalJoin(ports - {p}, s, u);
    TotalFrame(ports, ports - {p}, s);
    TotalFrame(ports, ports - {p}, u);
    assert [p][1..] == [];
  }

  /** The first message named by a port is the head of its queue. */
  lemma FirstMessage(m: Messages, ports: PortTable, queues: Queues, owner: Owners, p: Slot)
    requires QueuesOk(m, ports, queues, owner) && p in ports
    ensures p in queues && p in View(m, queues)
    ensures queues[p] == [] <==> ports[p].first == NULL
    ensures queues[p] == [] <==> ports[p].total == 0
    ensures queues[p] != [] ==> ports[p].first in m && ports[p].first == queues[p][0]
    ensures queues[p] != [] ==> ports[p].last in m && ports[p].last == End(queues[p]) != NULL
    ensures ports[p].total == |queues[p]| == |View(m, queues)[p]|
    ensures ports[p].last == End(queues[p]) && (queues[p] == [] ==> ports[p].last == NULL)
  {
    LettersLength(m, ports[p].first, queues[p]);
    assert queues[p] != [] ==> End(queues[p]) in queues[p];
  }

  lemma CountsChange(m: Messages, m': Messages, ports: PortTable, open: seq<Slot>, p: Slot, x: Port)
    requires CountsOk(m, ports, open) && p in ports && |m'| - |m| == x.total - ports[p].total
    ensures CountsOk(m', ports[p := x], open)
  {
    TotalChange(ports, open, p, x);
  }

  // ----------------------------------------------------------------- the log

  /** A call that succeeded. `Sent` is a `send_msg`, `Put` an `enqueue` by the kernel itself. */
  datatype Call =
    | Opened(port: Slot)
    | Closed(port: Slot)
    | Emptied(port: Slot)
    | Sent(port: Slot, letter: Letter)
    | Put(port: Slot, letter: Letter)
    | Got(port: Slot, letter: Letter)

  /** What a call does to the letterboxes. */
  ghost predicate Happens(v: Letterboxes, e: Call, v': Letterboxes)
  {
    match e
    case Opened(p) => p !in v && v' == v[p := []]
    case Closed(p) => p in v && v' == v - {p}
    case Emptied(p) => p in v && v' == v[p := []]
    case Sent(p, l) => p in v && |v[p]| < 64 && v' == v[p := v[p] + [l]]
    case Put(p, l) => p in v && v' == v[p := v[p] + [l]]
    case Got(p, l) => p in v && v[p] != [] && v[p][0] == l && v' == v[p := v[p][1..]]
  }

  /** A call after which the port starts afresh. */
  predicate Resets(e: Call) { e.Opened? || e.Closed? || e.Emptied? }

  /** The letters sent to `p` since it was opened or emptied. */
  function SentTo(log: seq<Call>, p: Slot): seq<Letter>
  {
    if log == [] then [] else
    var e, before := log[|log| - 1], SentTo(log[..|log| - 1], p);
    if e.port != p then before else if Resets(e) then [] else if e.Got? then before else before + [e.letter]
  }

  /** The letters received from `p` since it was opened or emptied. */
  function GotFrom(log: seq<Call>, p: Slot): seq<Letter>
  {
    if log == [] then [] else
    var e, before := log[|log| - 1], GotFrom(log[..|log| - 1], p);
    if e.port != p then before else if Resets(e) then [] else if e.Got? then before + [e.letter] else before
  }

  /** How many letters the kernel itself has put on `p` since then. */
  function PutOn(log: seq<Call>, p: Slot): nat
  {
    if log == [] then 0 else
    var e, before := log[|log| - 1], PutOn(log[..|log| - 1], p);
    if e.port != p then before else if Resets(e) then 0 else if e.Put? then before + 1 else before
  }

  /** What was sent to a port is what was received from it followed by what waits, and no more waits than 64 letters
      and those the kernel put there. */
  ghost predicate Kept(log: seq<Call>, v: Letterboxes)
  {
    forall p :: p in v ==> SentTo(log, p) == GotFrom(log, p) + v[p] && |v[p]| <= 64 + PutOn(log, p)
  }

  /** Every call keeps it so. */
  lemma CallKeeps(log: seq<Call>, v: Letterboxes, e: Call, v': Letterboxes)
    requires Kept(log, v) && Happens(v, e, v')
    ensures Kept(log + [e], v')
  {
    var log' := log + [e];
    assert log'[..|log| ] == log;
    forall p | p in v'
      ensures SentTo(log', p) == GotFrom(log', p) + v'[p] && |v'[p]| <= 64 + PutOn(log', p)
    {
      if e.port == p && !Resets(e) { LetterMoves(SentTo(log, p), GotFrom(log, p), v[p], e, v'[p]); }
    }
  }

  lemma LetterMoves(sent: seq<Letter>, got: seq<Letter>, was: seq<Letter>, e: Call, now: seq<Letter>)
    requires sent == got + was && !Resets(e)
    requires if e.Got? then was != [] && was[0] == e.letter && now == was[1..] else now == was + [e.letter]
    ensures if e.Got? then sent == (got + [e.letter]) + now else sent + [e.letter] == got + now
  {
    if e.Got? { assert was == [e.letter] + now; }
  }

  // -------------------------------------------------------------- the kernel

  /** The structures in memory are the slots handed out, and `amount` counts them. */
  ghost predicate Held<T>(m: map<Slot, T>, out: iset<Slot>, amount: int, max: int)
  {
    (forall n :: n in m <==> n in out) && amount == |m| <= max
  }

  /** Writing fields does not change which structures there are. */
  lemma Rewritten<T>(m: map<Slot, T>, m': map<Slot, T>, out: iset<Slot>, amount: int, max: int)
    requires Held(m, out, amount, max) && m'.Keys == m.Keys
    ensures Held(m', out, amount, max)
  {
    assert |m'.Keys| == |m.Keys|;
  }

  /** The copy loops of `enqueue` and `dequeue`. */
  method CopyWords(src: Words, left: Words) returns (dst: Words)
    ensures dst == src
  {
    dst := left;
    for i := 0 to 4
      invariant forall k :: 0 <= k < i ==> dst[k] == src[k]
    {
      dst := dst[i := src[i]];
    }
  }

  class Messaging {
    const msgSlab: Containers
    const portSlab: Containers
    var msgs: Messages
    var ports: PortTable
    var msgAmount: int
    var portAmount: int
    ghost var queues: Queues
    ghost var owner: Owners
    ghost var open: seq<Slot>
    ghost var log: seq<Call>

    /** Structures in memory are the slots handed out, and `ammount` counts them. */
    ghost predicate Memory()
      reads this, msgSlab, portSlab
    {
      && msgSlab != portSlab && msgSlab.Valid() && portSlab.Valid()
      && Held(msgs, msgSlab.Outstanding(), msgAmount, 65536)
      && Held(ports, portSlab.Outstanding(), portAmount, 131072)
    }

    /** The chains of messages are the queues of the ports. */
    ghost predicate Sound()
      reads this, msgSlab, portSlab
    {
      Memory() && QueuesOk(msgs, ports, queues, owner) && CountsOk(msgs, ports, open)
    }

    /** And the queues are what the calls so far should have made of them. */
    ghost predicate Valid()
      reads this, msgSlab, portSlab
    {
      Sound() && Kept(log, Boxes())
    }

    /** The letters waiting on each open port, oldest first. */
    ghost function Boxes(): Letterboxes
      reads this
    {
      View(msgs, queues)
    }

    /** Messages in use are the messages on the ports, each on one of them. */
    lemma LiveMessages()
      requires Valid()
      ensures msgAmount == Total(ports, open) && Distinct(open) && forall p :: p in open <==> p in ports
      ensures forall p :: p in ports ==> p in Boxes() && ports[p].total == |Boxes()[p]|
      ensures forall n :: n in msgSlab.Outstanding() <==> exists p :: p in queues && n in queues[p]
      ensures forall p, q, n :: p in queues && q in queues && n in queues[p] && n in queues[q] ==> p == q
    {
      hide Live, Ok, Letters, Links, OwnersOk;
      forall p | p in ports ensures p in Boxes() && ports[p].total == |Boxes()[p]| {
        FirstMessage(msgs, ports, queues, owner, p);
      }
      OwnersUnique(queues, owner);
    }

    /** Whatever calls were made, the letters sent to an open port are those received from it followed by those that
        wait on it, in order; and a port that only `send_msg` fills never holds more than 64. */
    lemma FifoDelivery()
      requires Valid()
      ensures forall p :: p in ports ==>
        && p in Boxes() && SentTo(log, p) == GotFrom(log, p) + Boxes()[p]
        && ports[p].total == |Boxes()[p]| && (PutOn(log, p) == 0 ==> ports[p].total <= 64)
    {
      hide Live, Ok, Letters, SentTo, GotFrom, PutOn;
      forall p | p in ports ensures p in Boxes() && ports[p].total == |Boxes()[p]| {
        FirstMessage(msgs, ports, queues, owner, p);
      }
    }

    /** After `init_containers` and `init_salloc`. */
    constructor (msgSlab: Containers, portSlab: Containers)
      requires msgSlab != portSlab && msgSlab.Valid() && portSlab.Valid()
      requires msgSlab.Outstanding() == iset{} && portSlab.Outstanding() == iset{}
      ensures Valid() && Boxes() == map[] && log == [] && this.msgSlab == msgSlab && this.portSlab == portSlab
    {
      this.msgSlab := msgSlab;
      this.portSlab := portSlab;
      msgs, ports, queues, owner, open := map[], map[], map[], map[], [];
      msgAmount, portAmount := 0, 0;
      log := [];
    }

    /** `salloc` for a message. `supply` is the page `dyn_alloc_page` would give, or 0. */
    method SAllocMsg(supply: int) returns (n: Slot)
      requires Memory() && supply !in msgSlab.pages
      modifies this`msgs, this`msgAmount, msgSlab
      ensures Memory()
      ensures n == NULL <==> old(msgAmount) == 65536 || (old(msgSlab.firstFree) == 0 && supply == 0)
      ensures n == NULL ==> msgs == old(msgs)
      ensures n != NULL ==> n !in old(msgs) && n in msgs && msgs == old(msgs)[n := msgs[n]]
    {
      hide Live, Ok;
      if msgAmount == 65536 { return NULL; }
      msgAmount := msgAmount + 1;
      n := msgSlab.CsAlloc(supply);
      if n.page == 0 {
        n := NULL;
        msgAmount := msgAmount - 1;
      } else {
        var left: Message := *;
        AddKey(msgs, n, left);
        msgs := msgs[n := left];
      }
    }

    /** `salloc` for a port. */
    method SAllocPort(supply: int) returns (p: Slot)
      requires Memory() && supply !in portSlab.pages
      modifies this`ports, this`portAmount, portSlab
      ensures Memory()
      ensures p == NULL <==> old(portAmount) == 131072 || (old(portSlab.firstFree) == 0 && supply == 0)
      ensures p == NULL ==> ports == old(ports)
      ensures p != NULL ==> p !in old(ports) && p in ports && ports == old(ports)[p := ports[p]]
    {
      hide Live, Ok;
      if portAmount == 131072 { return NULL; }
      portAmount := portAmount + 1;
      p := portSlab.CsAlloc(supply);
      if p.page == 0 {
        p := NULL;
        portAmount := portAmount - 1;
      } else {
        var left: Port := *;
        AddKey(ports, p, left);
        ports := ports[p := left];
      }
    }

    /** `sfree` of a port. */
    method SFreePort(p: Slot)
      requires Memory() && p in ports
      modifies this`ports, this`portAmount, portSlab
      ensures Memory() && ports == old(ports) - {p}
    {
      hide Live, Ok;
      var returned := portSlab.CsFree(p);
      DropKey(ports, p);
      ports := ports - {p};
      portAmount := portAmount - 1;
    }

    /** `sfree` of a message. */
    method SFreeMsg(n: Slot)
      requires Memory() && n in msgs
      modifies this`msgs, this`msgAmount, msgSlab
      ensures Memory() && msgs == old(msgs) - {n}
    {
      hide Live, Ok;
      var returned := msgSlab.CsFree(n);
      DropKey(msgs, n);
      msgs := msgs - {n};
      msgAmount := msgAmount - 1;
    }

    /** `create_port`, with the mode and privilege `open_port` then writes. */
    method CreatePort(mode: Mode, priv: int, supply: int) returns (p: Slot)
      requires Valid() && supply !in portSlab.pages
      modifies this, portSlab
      ensures Valid()
      ensures p == NULL <==> old(portAmount) == 131072 || (old(portSlab.firstFree) == 0 && supply == 0)
      ensures p == NULL ==> Boxes() == old(Boxes()) && ports == old(ports) && log == old(log)
      ensures p != NULL ==> Happens(old(Boxes()), Opened(p), Boxes()) && log == old(log) + [Opened(p)]
      ensures p != NULL ==> p in ports && ports[p].mode == mode && ports[p].priv == priv
    {
      hide Live, Ok, QueuesOk, CountsOk, View, Held, End, Letters, Kept;
      p := SAllocPort(supply);
      if p != NULL {
        ghost var was := ports;
        ports := ports[p := Port(NULL, NULL, 0, ports[p].mode, ports[p].priv)];
        ports := ports[p := ports[p].(mode := mode, priv := priv)];
        Rewritten(was, ports, portSlab.Outstanding(), portAmount, 131072);
        AddPort(msgs, old(ports), queues, owner, p, ports[p]);
        AddOpen(msgs, old(ports), open, p, ports[p]);
        assert ports == old(ports)[p := ports[p]];
        queues := queues[p := []];
        open := open + [p];
        CallKeeps(log, old(Boxes()), Opened(p), Boxes());
        log := log + [Opened(p)];
      }
    }

    /** `enqueue`. */
    method Enqueue(from: int, p: Slot, msg: Words, supply: int) returns (ok: bool)
      requires Valid() && p in ports && supply !in msgSlab.pages
      modifies this, msgSlab
      ensures Valid()
      ensures ok <==> !(old(msgAmount) == 65536 || (old(msgSlab.firstFree) == 0 && supply == 0))
      ensures !ok ==> Boxes() == old(Boxes()) && ports == old(ports) && log == old(log)
      ensures ok ==> Happens(old(Boxes()), Put(p, Letter(from, msg)), Boxes())
      ensures ok ==> log == old(log) + [Put(p, Letter(from, msg))]
    {
      hide Live, Ok, QueuesOk, CountsOk, View, Held, End, Letters, Kept;
      ok := false;
      FirstMessage(msgs, ports, queues, owner, p);
      var m := SAllocMsg(supply);
      if m != NULL {
        ok := true;
        var data := CopyWords(msg, msgs[m].data);
        LinkLast(old(msgs), p, m, Message(from, data, NULL));
        ghost var call := Put(p, Letter(from, msg));
        CallKeeps(log, old(Boxes()), call, Boxes());
        log := log + [call];
      }
    }

    /** Lines 591-607: the message goes behind the last one of the port. */
    method LinkLast(ghost before: Messages, p: Slot, m: Slot, x: Message)
      requires Memory() && QueuesOk(before, ports, queues, owner) && CountsOk(before, ports, open) && p in ports
      requires m !in before && m != NULL && m in msgs && msgs == before[m := msgs[m]] && x.next == NULL
      modifies this`msgs, this`ports, this`queues, this`owner
      ensures Sound() && p in old(queues)
      ensures Boxes() == View(before, old(queues))[p := View(before, old(queues))[p] + [Letter(x.sender, x.data)]]
    {
      hide Live, Ok, QueuesOk, CountsOk, View, Held, Letters;
      FirstMessage(before, ports, queues, owner, p);
      var port, mem := ports[p], msgs[m := x];
      if port.first == NULL {
        port := port.(first := m, last := m);
      } else {
        mem := mem[port.last := mem[port.last].(next := m)];
        port := port.(last := m);
      }
      port := port.(total := port.total + 1);
      assert mem == Appended(before, queues[p], m, x);
      PutNode(before, ports, queues, owner, p, m, x, port);
      CountsChange(before, mem, ports, open, p, port);
      hide Appended, End;
      Rewritten(msgs, mem, msgSlab.Outstanding(), msgAmount, 65536);
      Rewritten(ports, ports[p := port], portSlab.Outstanding(), portAmount, 131072);
      msgs, ports := mem, ports[p := port];
      queues := queues[p := queues[p] + [m]];
      owner := owner[m := p];
    }

    /** `dequeue`. */
    method Dequeue(p: Slot) returns (ok: bool, id: int, msg: Words)
      requires Valid() && p in ports
      modifies this, msgSlab
      ensures Valid() && p in old(Boxes())
      ensures ok <==> old(Boxes())[p] != []
      ensures !ok ==> Boxes() == old(Boxes()) && ports == old(ports) && log == old(log)
      ensures ok ==> Happens(old(Boxes()), Got(p, Letter(id, msg)), Boxes())
      ensures ok ==> log == old(log) + [Got(p, Letter(id, msg))]
    {
      hide Live, Ok, QueuesOk, CountsOk, View, Held, End, Letters, Kept;
      ok, id, msg := false, 0, [0, 0, 0, 0];
      FirstMessage(msgs, ports, queues, owner, p);
      var port := ports[p];
      var first := port.first;
      if first != NULL {
        ok := true;
        port := port.(first := msgs[first].next);
        id := msgs[first].sender;
        msg := CopyWords(msgs[first].data, msg);
        port := port.(total := port.total - 1);
        if port.total == 0 { port := port.(last := NULL); }
        Unqueue(p, port, first);
        ghost var call := Got(p, Letter(id, msg));
        CallKeeps(log, old(Boxes()), call, Boxes());
        log := log + [call];
      }
    }

    /** The changed port is written back and its first message freed. */
    method Unqueue(p: Slot, port: Port, first: Slot)
      requires Sound() && p in ports && p in queues && queues[p] != [] && first == ports[p].first && first in msgs
      requires port.first == msgs[first].next && port.total == ports[p].total - 1
      requires port.last == if port.total == 0 then NULL else ports[p].last
      modifies this`msgs, this`msgAmount, this`ports, this`queues, this`owner, msgSlab
      ensures Sound() && p in old(Boxes()) && old(Boxes())[p] != []
      ensures old(Boxes())[p][0] == old(Letter(msgs[first].sender, msgs[first].data))
      ensures Boxes() == old(Boxes())[p := old(Boxes())[p][1..]]
    {
      hide Live, Ok, QueuesOk, CountsOk, View, Held, End, Letters, Kept;
      TakeNode(msgs, ports, queues, owner, p, port);
      CountsChange(msgs, msgs - {first}, ports, open, p, port);
      Rewritten(ports, ports[p := port], portSlab.Outstanding(), portAmount, 131072);
      ports := ports[p := port];
      SFreeMsg(first);
      queues := queues[p := queues[p][1..]];
      owner := owner - {first};
    }

    /** `empty`. In the proof the port keeps, as `was`, the fields that describe what is still queued. */
    method Empty(p: Slot)
      requires Valid() && p in ports
      modifies this, msgSlab
      ensures Valid() && Happens(old(Boxes()), Emptied(p), Boxes()) && p in queues && queues[p] == []
      ensures ports.Keys == old(ports.Keys) && log == old(log) + [Emptied(p)]
    {
      hide Live, Ok, QueuesOk, CountsOk, View, Held, End, Letters, Kept;
      FirstMessage(msgs, ports, queues, owner, p);
      var m := ports[p].first;
      ghost var was := ports[p];
      ports := ports[p := ports[p].(first := NULL, last := NULL, total := 0)];
      assert ports[p := was] == old(ports);
      Rewritten(old(ports), ports, portSlab.Outstanding(), portAmount, 131072);
      FreeAll(p, was, m);
      CallKeeps(log, old(Boxes()), Emptied(p), Boxes());
      log := log + [Emptied(p)];
    }

    /** The loop of `empty`. */
    method FreeAll(p: Slot, ghost full: Port, first: Slot)
      requires Emptying(p, full, first)
      modifies this`msgs, this`msgAmount, this`queues, this`owner, msgSlab
      ensures Sound() && Boxes() == old(Boxes())[p := []] && p in queues && queues[p] == []
    {
      hide QueuesOk, CountsOk, View, Held, End, Letters;
      var m := first;
      ghost var was := full;
      ghost var boxes := Boxes();
      assert p in boxes;
      while m != NULL
        invariant Emptying(p, was, m)
        invariant Boxes().Keys == boxes.Keys && Boxes() == boxes[p := Boxes()[p]]
        decreases |queues[p]|
      {
        m, was := FreeFirst(p, was, m);
      }
      NothingLeft(p, was);
    }

    lemma NothingLeft(p: Slot, was: Port)
      requires Emptying(p, was, NULL)
      ensures Sound() && p in Boxes() && Boxes()[p] == [] && queues[p] == []
    {
      hide Live, Ok, QueuesOk, CountsOk, View, Held, End, Letters, Kept;
      FirstMessage(msgs, ports[p := was], queues, owner, p);
      assert was == ports[p];
      assert ports[p := was] == ports;
    }

    /** Amid `empty`: the port is already clear, and `m` starts the messages still to free. */
    ghost predicate Emptying(p: Slot, was: Port, m: Slot)
      reads this, msgSlab, portSlab
    {
      && p in ports && p in queues && ports[p] == was.(first := NULL, last := NULL, total := 0) && was.first == m
      && Memory() && QueuesOk(msgs, ports[p := was], queues, owner) && CountsOk(msgs, ports[p := was], open)
    }

    /** One round of the loop of `empty`. */
    method FreeFirst(p: Slot, ghost was: Port, m: Slot) returns (next: Slot, ghost w: Port)
      requires Emptying(p, was, m) && m != NULL
      modifies this`msgs, this`msgAmount, this`queues, this`owner, msgSlab
      ensures Emptying(p, w, next) && |queues[p]| < |old(queues)[p]|
      ensures Boxes().Keys == old(Boxes()).Keys && Boxes() == old(Boxes())[p := Boxes()[p]]
    {
      hide Live, Ok, QueuesOk, CountsOk, View, Held, End, Letters, Kept;
      FirstMessage(msgs, ports[p := was], queues, owner, p);
      next := msgs[m].next;
      w := was.(first := next, total := was.total - 1);
      w := w.(last := if w.total == 0 then NULL else was.last);
      TakeNode(msgs, ports[p := was], queues, owner, p, w);
      CountsChange(msgs, msgs - {m}, ports[p := was], open, p, w);
      assert ports[p := was][p := w] == ports[p := w];
      SFreeMsg(m);
      queues := queues[p := queues[p][1..]];
      owner := owner - {m};
    }

    /** `delete_port`. */
    method DeletePort(p: Slot)
      requires Valid() && p in ports
      modifies this, msgSlab, portSlab
      ensures Valid() && Happens(old(Boxes()), Closed(p), Boxes()) && ports.Keys == old(ports.Keys) - {p}
      ensures log == old(log) + [Emptied(p), Closed(p)]
    {
      hide Live, Ok, QueuesOk, CountsOk, View, Held, End, Letters, Kept;
      FirstMessage(msgs, ports, queues, owner, p);
      Empty(p);
      FirstMessage(msgs, ports, queues, owner, p);
      DropPort(msgs, ports, queues, owner, p);
      open := DropOpen(msgs, ports, open, p);
      SFreePort(p);
      queues := queues - {p};
      assert old(Boxes())[p := []] - {p} == old(Boxes()) - {p};
      CallKeeps(log, old(Boxes())[p := []], Closed(p), Boxes());
      log := log + [Closed(p)];
    }

    /** What `send_msg` does once the port and the pointers have been found good (lines 244-276). */
    method SendMsg(from: int, priv: int, p: Slot, msg: Words, supply: int) returns (ok: bool, error: Errors)
      requires Valid() && p in ports && supply !in msgSlab.pages
      modifies this, msgSlab
      ensures Valid() && p in old(Boxes())
      ensures ok <==>
        && old(ports)[p].mode != Disabled && |old(Boxes())[p]| < 64
        && (old(ports)[p].mode == Unrestricted || priv <= old(ports)[p].priv)
        && old(msgAmount) != 65536 && (old(msgSlab.firstFree) != 0 || supply != 0)
      ensures !ok ==> Boxes() == old(Boxes()) && ports == old(ports) && log == old(log)
      ensures ok ==> Happens(old(Boxes()), Sent(p, Letter(from, msg)), Boxes())
      ensures ok ==> log == old(log) + [Sent(p, Letter(from, msg))]
      ensures ok <==> error == ErrOk
      ensures error == ErrNoPermission <==>
        && old(ports)[p].mode != Disabled && |old(Boxes())[p]| < 64
        && old(ports)[p].mode != Unrestricted && priv > old(ports)[p].priv
      ensures error == ErrNoMem <==>
        && old(ports)[p].mode != Disabled && |old(Boxes())[p]| < 64
        && (old(ports)[p].mode == Unrestricted || priv <= old(ports)[p].priv)
        && (old(msgAmount) == 65536 || (old(msgSlab.firstFree) == 0 && supply == 0))
      // the two codes are crossed
      ensures error == ErrPortDisabled <==> old(ports)[p].mode != Disabled && |old(Boxes())[p]| >= 64
      ensures error == ErrPortFull <==> old(ports)[p].mode == Disabled
    {
      hide Live, Ok, QueuesOk, CountsOk, View, Held, End, Letters, Kept;
      FirstMessage(msgs, ports, queues, owner, p);
      ok, error := false, ErrNoMem;
      if ports[p].mode != Disabled && ports[p].total < 64 {
        if ports[p].mode == Unrestricted || priv <= ports[p].priv {
          ok := Enqueue(from, p, msg, supply);
          if ok {
            error := ErrOk;
            ghost var call := Sent(p, Letter(from, msg));
            CallKeeps(old(log), old(Boxes()), call, Boxes());
            log := old(log) + [call];
          }
        } else {
          error := ErrNoPermission;
        }
      } else if ports[p].mode != Disabled {
        error := ErrPortDisabled;
      } else {
        error := ErrPortFull;
      }
    }
  }
}
