/** The wire-index registry of the VDB backend, `init_wire_map`: one
    16-bit counter value per wire of the design, handed out in iteration
    order across all modules. */
module WireRegistry {
  import opened Bytes
  import opened Rtlil
  import StdMap

  /** The names of `ws`. */
  function Names(ws: seq<Wire>): set<string>
  {
    set i | 0 <= i < |ws| :: ws[i].name
  }

  /** The position of the first wire of `ws` called `k`. */
  function FirstIndex(ws: seq<Wire>, k: string): (i: nat)
    requires k in Names(ws)
    ensures i < |ws| && ws[i].name == k
    ensures forall j :: 0 <= j < i ==> ws[j].name != k
  {
    if ws[|ws| - 1].name == k && k !in Names(ws[..|ws| - 1]) then |ws| - 1
    else
      assert k in Names(ws[..|ws| - 1]) by {
        var i :| 0 <= i < |ws| && ws[i].name == k;
        if i == |ws| - 1 {
        } else {
          assert ws[..|ws| - 1][i] == ws[i];
        }
      }
      FirstIndex(ws[..|ws| - 1], k)
  }

  /** The map `init_wire_map` leaves behind, starting from `m`, after handing
      the counter values 0, 1, 2, ... (modulo 2^16) to the wires `ws` in
      order; `insert` leaves a name that is already present alone. */
  function Registered(m: map<string, u16>, ws: seq<Wire>): map<string, u16>
  {
    if ws == [] then m
    else
      StdMap.Insert(Registered(m, ws[..|ws| - 1]), ws[|ws| - 1].name, (|ws| - 1) % 0x1_0000)
  }

  /** What the registry holds: the names already in `m` keep their value,
      and every other wire name gets the counter value of its first wire. */
  lemma {:induction false} RegisteredMeaning(m: map<string, u16>, ws: seq<Wire>)
    ensures Registered(m, ws).Keys == m.Keys + Names(ws)
    ensures forall k :: k in Registered(m, ws) ==>
      Registered(m, ws)[k] == if k in m then m[k] else FirstIndex(ws, k) % 0x1_0000
  {
    if ws != [] {
      var ws', w := ws[..|ws| - 1], ws[|ws| - 1];
      assert ws == ws' + [w];
      RegisteredMeaning(m, ws');
      NamesSnoc(ws', w);
      forall k | k in Registered(m, ws) && k !in m
        ensures Registered(m, ws)[k] == FirstIndex(ws, k) % 0x1_0000
      {
        if k in Names(ws') {
          FirstIndexSnoc(ws', w, k);
        }
      }
    }
  }

  /** One more wire: `wmap.insert({ww->name, cnt})` with `cnt` the number of
      wires seen before it, modulo 2^16. */
  lemma RegisteredSnoc(m: map<string, u16>, ws: seq<Wire>, w: Wire)
    ensures Registered(m, ws + [w]) == StdMap.Insert(Registered(m, ws), w.name, |ws| % 0x1_0000)
  {
    assert (ws + [w])[..|ws|] == ws;
  }

  lemma NamesSnoc(ws: seq<Wire>, w: Wire)
    ensures Names(ws + [w]) == Names(ws) + {w.name}
  {
    var ws' := ws + [w];
    assert forall j :: 0 <= j < |ws| ==> ws'[j] == ws[j];
    assert ws'[|ws|] == w;
    forall k | k in Names(ws') ensures k in Names(ws) + {w.name} {
      var i :| 0 <= i < |ws'| && ws'[i].name == k;
    }
  }

  lemma FirstIndexSnoc(ws: seq<Wire>, w: Wire, k: string)
    requires k in Names(ws)
    ensures k in Names(ws + [w]) && FirstIndex(ws + [w], k) == FirstIndex(ws, k)
  {
    var ws' := ws + [w];
    NamesSnoc(ws, w);
    assert forall j :: 0 <= j < |ws| ==> ws'[j] == ws[j];
    var i := FirstIndex(ws, k);
    var i' := FirstIndex(ws', k);
    assert ws'[i] == ws[i];
  }

  /** When every wire has its own name, each wire is registered with its
      own position. */
  lemma RegisteredPositions(ws: seq<Wire>)
    requires forall i, j :: 0 <= i < j < |ws| ==> ws[i].name != ws[j].name
    ensures forall i :: 0 <= i < |ws| ==> ws[i].name in Registered(map[], ws) && Registered(map[], ws)[ws[i].name] == i % 0x1_0000
  {
    RegisteredMeaning(map[], ws);
    forall i | 0 <= i < |ws|
      ensures ws[i].name in Registered(map[], ws) && FirstIndex(ws, ws[i].name) == i
    {
      assert ws[i].name in Names(ws);
    }
  }

  /** When every wire has its own name and there are at most 2^16 of them,
      the registry numbers the wires 0, 1, 2, ... without gaps or repeats. */
  lemma RegisteredDistinct(ws: seq<Wire>)
    requires |ws| <= 0x1_0000
    requires forall i, j :: 0 <= i < j < |ws| ==> ws[i].name != ws[j].name
    ensures forall i :: 0 <= i < |ws| ==> ws[i].name in Registered(map[], ws) && Registered(map[], ws)[ws[i].name] == i
    ensures forall v :: v in Registered(map[], ws).Values <==> 0 <= v < |ws|
  {
    var r := Registered(map[], ws);
    RegisteredPositions(ws);
    RegisteredMeaning(map[], ws);
    forall i | 0 <= i < |ws| ensures r[ws[i].name] == i {
      SmallMod(i);
    }
    NumberedValues(r, ws);
  }

  lemma SmallMod(i: int)
    requires 0 <= i < 0x1_0000
    ensures i % 0x1_0000 == i
  {
  }

  /** A map whose keys are the names of `ws` and which maps each wire's name
      to its position holds exactly the positions as values. */
  lemma NumberedValues(r: map<string, u16>, ws: seq<Wire>)
    requires r.Keys == Names(ws)
    requires forall i :: 0 <= i < |ws| ==> r[ws[i].name] == i
    ensures forall v :: v in r.Values <==> 0 <= v < |ws|
  {
    forall v | v in r.Values ensures 0 <= v < |ws| {
      var k :| k in r && r[k] == v;
      var i :| 0 <= i < |ws| && ws[i].name == k;
    }
    forall v | 0 <= v < |ws| ensures v in r.Values {
      assert ws[v].name in Names(ws);
      assert r[ws[v].name] == v;
    }
  }

  /** A name seen again keeps its first value, but its wire still uses up a
      counter value: with wires `a`, `b` in one module and `a`, `c` in the
      next, `c` gets 3. */
  lemma RegisteredExample()
    ensures
      var ms := [Module("m1", [Wire("a", true, false), Wire("b", false, true)], [], [], map[]),
                 Module("m2", [Wire("a", true, false), Wire("c", false, true)], [], [], map[])];
      Registered(map[], AllWires(ms)) == map["a" := 0, "b" := 1, "c" := 3]
  {
    var m1 := Module("m1", [Wire("a", true, false), Wire("b", false, true)], [], [], map[]);
    var m2 := Module("m2", [Wire("a", true, false), Wire("c", false, true)], [], [], map[]);
    var ms := [m1, m2];
    AllWiresSnoc([], m1);
    assert [m1] == [] + [m1];
    AllWiresSnoc([m1], m2);
    assert ms == [m1] + [m2];
    var ws := AllWires(ms);
    assert ws == m1.wires + m2.wires;
    var a, b, a', c := Wire("a", true, false), Wire("b", false, true), Wire("a", true, false), Wire("c", false, true);
    assert ws == [a, b, a', c];
    assert Registered(map[], [a]) == map["a" := 0] by {
      RegisteredSnoc(map[], [], a);
      assert [] + [a] == [a];
    }
    assert Registered(map[], [a, b]) == map["a" := 0, "b" := 1] by {
      RegisteredSnoc(map[], [a], b);
      assert [a] + [b] == [a, b] && "b" != "a";
    }
    assert Registered(map[], [a, b, a']) == map["a" := 0, "b" := 1] by {
      RegisteredSnoc(map[], [a, b], a');
      assert [a, b] + [a'] == [a, b, a'];
    }
    assert Registered(map[], [a, b, a', c]) == map["a" := 0, "b" := 1, "c" := 3] by {
      RegisteredSnoc(map[], [a, b, a'], c);
      assert [a, b, a'] + [c] == [a, b, a', c] && "c" != "a" && "c" != "b";
    }
  }

  /** `std::map<IdString, u16>`, passed to `init_wire_map` by reference. */
  class WireMap {
    var entries: map<string, u16>

    constructor ()
      ensures entries == map[]
    {
      entries := map[];
    }

    /** `insert`: a name already present keeps its value. */
    method Insert(k: string, v: u16)
      modifies this
      ensures entries == StdMap.Insert(old(entries), k, v)
    {
      if k !in entries {
        entries := entries[k := v];
      }
    }
  }

  /** The step of a loop over `ws`: the wire at position `n` is registered
      with counter value `n`. */
  lemma RegisteredStep(m: map<string, u16>, ws: seq<Wire>, n: nat)
    requires n < |ws|
    ensures Registered(m, ws[..n + 1]) == StdMap.Insert(Registered(m, ws[..n]), ws[n].name, n % 0x1_0000)
  {
    RegisteredSnoc(m, ws[..n], ws[n]);
    assert ws[..n] + [ws[n]] == ws[..n + 1];
  }

  /** The 16-bit counter wraps around. */
  lemma CounterStep(n: nat, cnt: u16)
    requires cnt == n % 0x1_0000
    ensures (cnt + 1) % 0x1_0000 == (n + 1) % 0x1_0000
  {
    var q := n / 0x1_0000;
    assert n == q * 0x1_0000 + cnt;
    if cnt + 1 == 0x1_0000 {
      assert n + 1 == (q + 1) * 0x1_0000;
    } else {
      assert n + 1 == q * 0x1_0000 + (cnt + 1);
    }
  }

  /** `init_wire_map(wmap, design)`. */
  method InitWireMap(wmap: WireMap, ms: seq<Module>)
    modifies wmap
    ensures wmap.entries == Registered(old(wmap.entries), AllWires(ms))
  {
    ghost var m0 := wmap.entries;
    ghost var all := AllWires(ms);
    ghost var n := 0;
    var cnt: u16 := 0;
    var i := 0;
    assert Registered(m0, all[..0]) == m0;
    while i < |ms|
      invariant 0 <= i <= |ms|
      invariant n == |AllWires(ms[..i])| && n <= |all|
      invariant cnt == n % 0x1_0000
      invariant wmap.entries == Registered(m0, all[..n])
    {
      var wires := ms[i].wires;
      var j := 0;
      while j < |wires|
        invariant 0 <= j <= |wires|
        invariant n == |AllWires(ms[..i])| + j && n <= |all|
        invariant cnt == n % 0x1_0000
        invariant wmap.entries == Registered(m0, all[..n])
      {
        WireAt(ms, i, j);
        RegisteredStep(m0, all, n);
        wmap.Insert(wires[j].name, cnt);
        CounterStep(n, cnt);
        cnt := (cnt + 1) % 0x1_0000;
        n := n + 1;
        j := j + 1;
      }
      WiresCount(ms, i);
      i := i + 1;
    }
    assert ms[..i] == ms && all[..n] == all;
  }
}
