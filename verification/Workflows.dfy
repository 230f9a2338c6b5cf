/** Workflow rules, their table, the writes of the CRUD handlers and the query the engine asks. */
module Workflows {
  import opened Json
  import opened Options

  datatype Condition = Condition(field: string, operator: string, value: Json)

  datatype Action = Action(kind: string, params: Json)

  datatype Workflow = Workflow(
    id: nat, business: string, name: string, description: Option<string>, trigger: string, active: bool,
    conditions: seq<Condition>, actions: seq<Action>, logDepth: string, createdAt: int, updatedAt: int)

  /** The dictionary a cached rule is stored as. */
  datatype Rule = Rule(
    id: nat, business: string, name: string, description: Option<string>, trigger: string, active: bool,
    conditions: seq<Condition>, actions: seq<Action>, logDepth: string)

  function Serialize(w: Workflow): Rule {
    Rule(w.id, w.business, w.name, w.description, w.trigger, w.active, w.conditions, w.actions, w.logDepth)
  }

  /** The model instance that the trigger handler builds from a rule; it has no timestamps of its own. */
  function Rebuilt(r: Rule): Workflow {
    Workflow(r.id, r.business, r.name, r.description, r.trigger, r.active, r.conditions, r.actions, r.logDepth, 0, 0)
  }

  /** Equal in every field that is no timestamp. */
  predicate SameRule(w: Workflow, w': Workflow) {
    w.(createdAt := w'.createdAt, updatedAt := w'.updatedAt) == w'
  }

  predicate Selected(w: Workflow, b: string, t: string) {
    w.business == b && w.trigger == t && w.active
  }

  /** get_active_by_trigger, in table order. */
  function ActiveByTrigger(table: seq<Workflow>, b: string, t: string): seq<Workflow> {
    if table == [] then []
    else
      var n := |table| - 1;
      ActiveByTrigger(table[..n], b, t) + if Selected(table[n], b, t) then [table[n]] else []
  }

  /** What the uncached query answers, serialized. */
  function Query(table: seq<Workflow>, b: string, t: string): seq<Rule> {
    Serialized(ActiveByTrigger(table, b, t))
  }

  function Serialized(rows: seq<Workflow>): seq<Rule> {
    seq(|rows|, i requires 0 <= i < |rows| => Serialize(rows[i]))
  }

  lemma SerializedConcat(x: seq<Workflow>, y: seq<Workflow>)
    ensures Serialized(x + y) == Serialized(x) + Serialized(y)
  {
  }

  /** WorkflowUpdate: the fields that are present. */
  datatype Patch = Patch(
    name: Option<string>, description: Option<string>, trigger: Option<string>, active: Option<bool>,
    conditions: Option<seq<Condition>>, actions: Option<seq<Action>>, logDepth: Option<string>)

  function GetOr<T>(o: Option<T>, default: T): T {
    if o.Some? then o.value else default
  }

  function Patched(w: Workflow, p: Patch, now: int): Workflow {
    w.(name := GetOr(p.name, w.name),
       description := if p.description.Some? then p.description else w.description,
       trigger := GetOr(p.trigger, w.trigger),
       active := GetOr(p.active, w.active),
       conditions := GetOr(p.conditions, w.conditions),
       actions := GetOr(p.actions, w.actions),
       logDepth := GetOr(p.logDepth, w.logDepth),
       updatedAt := now)
  }

  /** get_one_by(id, business): the row's position, or |table|. */
  function Find(table: seq<Workflow>, id: nat, b: string): (i: nat)
    ensures i <= |table|
    ensures i < |table| ==> table[i].id == id && table[i].business == b
    ensures forall k :: 0 <= k < i ==> !(table[k].id == id && table[k].business == b)
  {
    if table == [] then 0
    else if table[0].id == id && table[0].business == b then 0
    else 1 + Find(table[1..], id, b)
  }

  lemma FindIff(table: seq<Workflow>, id: nat, b: string)
    ensures var i := Find(table, id, b);
            && i <= |table| && (i < |table| <==> exists w :: w in table && w.id == id && w.business == b)
            && (i < |table| ==> table[i].id == id && table[i].business == b)
  {
    var i := Find(table, id, b);
    if i < |table| { assert table[i] in table; }
  }

  datatype Write =
    | Create(row: Workflow)
    | Update(id: nat, business: string, patch: Patch, at: int)
    | Delete(id: nat, business: string)

  /** The committed effect of a write; a row that is not there is left alone. */
  function Apply(table: seq<Workflow>, op: Write): seq<Workflow> {
    match op
    case Create(row) => table + [row]
    case Update(id, b, patch, at) =>
      var i := Find(table, id, b);
      if i < |table| then table[i := Patched(table[i], patch, at)] else table
    case Delete(id, b) =>
      var i := Find(table, id, b);
      if i < |table| then table[..i] + table[i + 1..] else table
  }

  lemma {:induction false} ActiveConcat(x: seq<Workflow>, y: seq<Workflow>, b: string, t: string)
    ensures ActiveByTrigger(x + y, b, t) == ActiveByTrigger(x, b, t) + ActiveByTrigger(y, b, t)
  {
    if y == [] {
      assert x + y == x;
    } else {
      var n := |y| - 1;
      assert (x + y)[..|x| + n] == x + y[..n];
      ActiveConcat(x, y[..n], b, t);
    }
  }

  function Picked(w: Workflow, b: string, t: string): seq<Workflow> {
    if Selected(w, b, t) then [w] else []
  }

  lemma ActiveOne(w: Workflow, b: string, t: string)
    ensures ActiveByTrigger([w], b, t) == Picked(w, b, t)
  {
    assert [w][..0] == [];
  }

  /** A table around row i. */
  lemma ActiveAround(x: seq<Workflow>, w: Workflow, y: seq<Workflow>, b: string, t: string)
    ensures ActiveByTrigger(x + [w] + y, b, t) == ActiveByTrigger(x, b, t) + Picked(w, b, t) + ActiveByTrigger(y, b, t)
    ensures ActiveByTrigger(x + y, b, t) == ActiveByTrigger(x, b, t) + ActiveByTrigger(y, b, t)
  {
    ActiveConcat(x + [w], y, b, t);
    ActiveConcat(x, [w], b, t);
    ActiveConcat(x, y, b, t);
    ActiveOne(w, b, t);
  }

  /** What a row adds to the answer of a query. */
  function Shown(w: Workflow, b: string, t: string): seq<Rule> {
    if Selected(w, b, t) then [Serialize(w)] else []
  }

  /** The answer row by row. */
  lemma QueryAround(x: seq<Workflow>, w: Workflow, y: seq<Workflow>, b: string, t: string)
    ensures Query(x + [w] + y, b, t) == Query(x, b, t) + Shown(w, b, t) + Query(y, b, t)
    ensures Query(x + y, b, t) == Query(x, b, t) + Query(y, b, t)
  {
    hide ActiveByTrigger, Serialized;
    var a, c := ActiveByTrigger(x, b, t), ActiveByTrigger(y, b, t);
    ActiveAround(x, w, y, b, t);
    SerializedConcat(a + Picked(w, b, t), c);
    SerializedConcat(a, Picked(w, b, t));
    SerializedConcat(a, c);
    ShownIsPicked(w, b, t);
  }

  lemma ShownIsPicked(w: Workflow, b: string, t: string)
    ensures Serialized(Picked(w, b, t)) == Shown(w, b, t)
  {
  }

  /** An update replaces what the row adds to an answer and nothing else; the answer stays the same if and
      only if the row adds the same before and after. */
  lemma UpdateQuery(table: seq<Workflow>, i: nat, w: Workflow, b: string, t: string)
    requires i < |table|
    ensures Query(table, b, t) == Query(table[..i], b, t) + Shown(table[i], b, t) + Query(table[i + 1..], b, t)
    ensures Query(table[i := w], b, t) == Query(table[..i], b, t) + Shown(w, b, t) + Query(table[i + 1..], b, t)
    ensures Query(table[i := w], b, t) == Query(table, b, t) <==> Shown(table[i], b, t) == Shown(w, b, t)
  {
    hide Query, Selected;
    assert table == table[..i] + [table[i]] + table[i + 1..];
    assert table[i := w] == table[..i] + [w] + table[i + 1..];
    QueryAround(table[..i], table[i], table[i + 1..], b, t);
    QueryAround(table[..i], w, table[i + 1..], b, t);
    SameMiddle(Query(table[..i], b, t), Shown(table[i], b, t), Shown(w, b, t), Query(table[i + 1..], b, t));
  }

  lemma SameMiddle(x: seq<Rule>, m: seq<Rule>, m': seq<Rule>, y: seq<Rule>)
    requires |m| <= 1 && |m'| <= 1
    ensures x + m + y == x + m' + y <==> m == m'
  {
    if x + m + y == x + m' + y {
      assert |m| == |m'|;
      assert m == (x + m + y)[|x|..|x| + |m|] == (x + m' + y)[|x|..|x| + |m'|] == m';
    }
  }

  /** A delete takes out what the row added. */
  lemma DeleteQuery(table: seq<Workflow>, i: nat, b: string, t: string)
    requires i < |table|
    ensures Query(table, b, t) == Query(table[..i], b, t) + Shown(table[i], b, t) + Query(table[i + 1..], b, t)
    ensures Query(table[..i] + table[i + 1..], b, t) == Query(table[..i], b, t) + Query(table[i + 1..], b, t)
  {
    hide Query, Selected;
    assert table == table[..i] + [table[i]] + table[i + 1..];
    QueryAround(table[..i], table[i], table[i + 1..], b, t);
  }

  lemma {:induction false} CreateQuery(table: seq<Workflow>, row: Workflow, b: string, t: string)
    ensures !Selected(row, b, t) ==> Query(table + [row], b, t) == Query(table, b, t)
    ensures Selected(row, b, t) ==> Query(table + [row], b, t) == Query(table, b, t) + [Serialize(row)]
  {
    ActiveConcat(table, [row], b, t);
    ActiveOne(row, b, t);
  }

  /** The query answers exactly the active rows of the business and trigger. */
  lemma {:induction false} QueryExact(table: seq<Workflow>, b: string, t: string, r: Rule)
    ensures r in Query(table, b, t) <==> exists w :: w in table && Selected(w, b, t) && Serialize(w) == r
  {
    ActiveExact(table, b, t);
    var rows := ActiveByTrigger(table, b, t);
    if r in Query(table, b, t) {
      var i :| 0 <= i < |rows| && r == Serialize(rows[i]);
      assert rows[i] in rows;
    }
    if w :| w in table && Selected(w, b, t) && Serialize(w) == r {
      assert w in rows;
      var i :| 0 <= i < |rows| && rows[i] == w;
      assert Query(table, b, t)[i] == r;
    }
  }


  /** The i-th rule of the answer rebuilds to the i-th selected row, timestamps aside. */
  lemma QueryRebuilds(table: seq<Workflow>, b: string, t: string)
    ensures |Query(table, b, t)| == |ActiveByTrigger(table, b, t)|
    ensures forall i :: 0 <= i < |ActiveByTrigger(table, b, t)| ==>
              SameRule(Rebuilt(Query(table, b, t)[i]), ActiveByTrigger(table, b, t)[i])
  {
    var rows := ActiveByTrigger(table, b, t);
    forall i | 0 <= i < |rows| ensures SameRule(Rebuilt(Query(table, b, t)[i]), rows[i]) {
      assert Query(table, b, t)[i] == Serialize(rows[i]);
    }
  }

  /** The selected rows are the active rows of the business and trigger, each as often as the table has it and
      in the table's order: the filter respects concatenation. */
  lemma {:induction false} SelectedRows(table: seq<Workflow>, more: seq<Workflow>, w: Workflow, b: string, t: string)
    ensures multiset(ActiveByTrigger(table, b, t))[w]
         == if w.business == b && w.trigger == t && w.active then multiset(table)[w] else 0
    ensures ActiveByTrigger(table + more, b, t) == ActiveByTrigger(table, b, t) + ActiveByTrigger(more, b, t)
  {
    ActiveConcat(table, more, b, t);
    if table != [] {
      var n := |table| - 1;
      SelectedRows(table[..n], [], w, b, t);
      assert table == table[..n] + [table[n]];
    }
  }

  /** A field the patch holds is the row's afterwards, one it leaves out is kept; the row stays who it is. */
  lemma PatchedFields(w: Workflow, p: Patch, now: int)
    ensures var w' := Patched(w, p, now);
            && w'.id == w.id && w'.business == w.business && w'.createdAt == w.createdAt && w'.updatedAt == now
            && (p.name.Some? ==> w'.name == p.name.value) && (p.name.None? ==> w'.name == w.name)
            && (p.description.Some? ==> w'.description == p.description)
            && (p.description.None? ==> w'.description == w.description)
            && (p.trigger.Some? ==> w'.trigger == p.trigger.value) && (p.trigger.None? ==> w'.trigger == w.trigger)
            && (p.active.Some? ==> w'.active == p.active.value) && (p.active.None? ==> w'.active == w.active)
            && (p.conditions.Some? ==> w'.conditions == p.conditions.value)
            && (p.conditions.None? ==> w'.conditions == w.conditions)
            && (p.actions.Some? ==> w'.actions == p.actions.value) && (p.actions.None? ==> w'.actions == w.actions)
            && (p.logDepth.Some? ==> w'.logDepth == p.logDepth.value)
            && (p.logDepth.None? ==> w'.logDepth == w.logDepth)
  {
  }

  function Later<T>(o: Option<T>, o': Option<T>): Option<T> { if o'.Some? then o' else o }

  /** Two patches one after the other are one patch in which the later one wins. */
  lemma PatchesCompose(w: Workflow, p: Patch, p': Patch, now: int, now': int)
    ensures Patched(Patched(w, p, now), p', now')
         == Patched(w, Patch(Later(p.name, p'.name), Later(p.description, p'.description),
                             Later(p.trigger, p'.trigger), Later(p.active, p'.active),
                             Later(p.conditions, p'.conditions), Later(p.actions, p'.actions),
                             Later(p.logDepth, p'.logDepth)), now')
  {
  }

  lemma {:induction false} ActiveExact(table: seq<Workflow>, b: string, t: string)
    ensures forall w :: w in ActiveByTrigger(table, b, t) <==> w in table && Selected(w, b, t)
  {
    if table != [] {
      var n := |table| - 1;
      ActiveExact(table[..n], b, t);
      assert table == table[..n] + [table[n]];
    }
  }
}
