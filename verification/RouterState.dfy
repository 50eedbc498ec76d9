/** The router as it runs: one `transfers` list and one `reserved` set per routing call,
    grown in place while the plan is rewritten. */
module RouterState {
  import opened Text
  import opened Plans
  import opened ExchangeNames
  import opened Routing
  import opened TransferOrder

  class Router {
    const cfg: Config
    const call: Call
    var reserved: set<string>
    var transfers: seq<Transfer>

    constructor (cfg: Config, id: nat, p: Plan)
      ensures this.cfg == cfg && call == Call(id, Scans(p))
      ensures Contents() == Book(Reserved(p), []) && BookOk(Contents(), call, id + 1)
    {
      this.cfg := cfg;
      call := Call(id, Scans(p));
      reserved := Reserved(p);
      transfers := [];
    }

    function Contents(): Book
      reads this
    {
      Book(reserved, transfers)
    }

    /** Hands out a name that no table, alias or earlier transfer of the call has, and that no
        other call hands out; the book stays in order. */
    method Publish(kind: Kind, engine: Engine, exported: Plan, completion: Completion) returns (name: string)
      modifies this
      ensures name == Fresh(old(reserved), BaseName(kind, call.id, |old(transfers)|))
      ensures Contents() == Book(old(reserved) + {name},
        old(transfers) + [Transfer(engine, exported, name, completion, call)])
      ensures name !in old(reserved) && GeneratedBy(name, call.id)
      ensures forall hi ::
        BookOk(old(Contents()), call, hi) && Scans(exported) <= call.scope &&
          Exchanges(exported) <= Names(old(transfers)) ==>
          BookOk(Contents(), call, hi) && name !in Names(old(transfers)) && [name] !in call.scope
    {
      name := PickFresh(reserved, BaseName(kind, call.id, |transfers|));
      StampOfFresh(kind, call.id, |transfers|, name);
      var t := Transfer(engine, exported, name, completion, call);
      forall hi | BookOk(Contents(), call, hi) && Scans(exported) <= call.scope &&
        Exchanges(exported) <= Names(transfers)
        ensures BookOk(Book(reserved + {name}, transfers + [t]), call, hi) && name !in Names(transfers) &&
          [name] !in call.scope
      {
        OrderlyAppend(transfers, t, call, hi, reserved);
        NewName(transfers, t);
        assert Scoped((transfers + [t])[|transfers|]);
      }
      reserved := reserved + {name};
      transfers := transfers + [t];
    }

    method Cut(p: Plan) returns (r: Option<Plan>)
      modifies this
      ensures r.Some? ==> TryCut(cfg, call, p, old(Contents())) == Routing.Cut(r.value, Contents())
      ensures r.None? ==> TryCut(cfg, call, p, old(Contents())) == Keep(Contents())
    {
      var owner := IslandSource(cfg, p);
      if owner.None? {
        return None;
      }
      var src := owner.value;
      if src in cfg.adapters {
        if cfg.lowers(p, src) {
          var name := Publish(Request, src, p, Closed);
          return Some(Restore(SchemaOf(p), ExchangeScan(name, |SchemaOf(p)|)));
        }
        return None;
      }
      if !cfg.exchangeable(p) || !cfg.prints(Export(p), src) {
        return None;
      }
      if OneQualifier(SchemaOf(p)) {
        var name := Publish(Exchange, src, Export(p), Plain);
        return Some(SqlReplacement(name, SchemaOf(p)));
      }
      // The name is taken even though no transfer follows.
      var name := PickFresh(reserved, BaseName(Exchange, call.id, |transfers|));
      reserved := reserved + {name};
      return None;
    }

    /** Rewrite one subtree top down; a cut subtree is not visited again. */
    method CutIslands(p: Plan) returns (q: Plan)
      modifies this
      ensures (q, Contents()) == Islands(cfg, call, p, old(Contents()))
      decreases p
    {
      var replacement := Cut(p);
      if replacement.Some? {
        return replacement.value;
      }
      label kept:
      match p {
        case Scan(_, _) => q := p;
        case Exchanged(_, _) => q := p;
        case Project(ns, i) => var k := CutIslands(i); q := Project(ns, k);
        case Restore(s, i) => var k := CutIslands(i); q := Restore(s, k);
        case Aliased(a, i) => var k := CutIslands(i); q := Aliased(a, k);
        case Dependent(c, o, s, i) => var k := CutIslands(i); q := Dependent(c, o, s, k);
        case Node(op, s, ks) =>
          var qs := [];
          ghost var start := Contents();
          assert ks[0..] == ks && [] + IslandsAll(cfg, call, ks, start).0 == IslandsAll(cfg, call, ks, start).0;
          for n := 0 to |ks|
            invariant |qs| == n
            invariant
              var rest := IslandsAll(cfg, call, ks[n..], Contents());
              IslandsAll(cfg, call, ks, start) == (qs + rest.0, rest.1)
          {
            assert ks[n..][1..] == ks[n + 1..];
            var k := CutIslands(ks[n]);
            ghost var rest := IslandsAll(cfg, call, ks[n + 1..], Contents());
            assert qs + ([k] + rest.0) == (qs + [k]) + rest.0;
            qs := qs + [k];
          }
          assert ks[|ks|..] == [] && qs + [] == qs;
          q := Node(op, s, qs);
      }
    }
  }

  lemma NewName(ts: seq<Transfer>, t: Transfer)
    requires Distinct(ts + [t])
    ensures t.name !in Names(ts)
  {
    var us := ts + [t];
    assert us[|ts|] == t && forall i :: 0 <= i < |ts| ==> us[i] == ts[i];
  }
}
