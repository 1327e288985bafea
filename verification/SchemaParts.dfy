/** The schema positions within a schema: what validation descends into, and nothing else. */
module SchemaParts {
  import opened Options
  import opened JsonValues
  import opened Pointers
  import opened Validator

  /** `p` is `s` itself or sits at a schema position within it; beside a `$ref` there is none. */
  ghost predicate Part(p: Json, s: Json)
    decreases s, 0
  {
    p == s ||
    (s.Obj? && Reference(s.members).None? &&
     exists i :: 0 <= i < |s.members| && ValuePart(p, s.members[i].key, s.members[i].val))
  }

  ghost predicate ValuePart(p: Json, key: string, v: Json)
    decreases v, 1
  {
    if key == "properties" && v.Obj? then exists i :: 0 <= i < |v.members| && Part(p, v.members[i].val)
    else if key in ["items", "additionalProperties"] then Part(p, v)
    else if key in ["prefixItems", "anyOf", "oneOf", "allOf"] && v.Arr? then
      exists i :: 0 <= i < |v.items| && Part(p, v.items[i])
    else false
  }

  /** `p` is part of one of the schemas or of a component. */
  ghost predicate InContract(p: Json, schemas: seq<Json>, comps: Components) {
    (exists i :: 0 <= i < |schemas| && Part(p, schemas[i])) || (exists n :: n in comps && Part(p, comps[n]))
  }

  lemma {:induction false} PartOfPart(q: Json, p: Json, s: Json)
    requires Part(q, p) && Part(p, s)
    ensures Part(q, s)
    decreases s, 0
  {
    if p != s {
      var i :| 0 <= i < |s.members| && ValuePart(p, s.members[i].key, s.members[i].val);
      PartOfValue(q, p, s.members[i].key, s.members[i].val);
      assert ValuePart(q, s.members[i].key, s.members[i].val);
    }
  }

  lemma {:induction false} PartOfValue(q: Json, p: Json, key: string, v: Json)
    requires Part(q, p) && ValuePart(p, key, v)
    ensures ValuePart(q, key, v)
    decreases v, 1
  {
    if key == "properties" && v.Obj? {
      var i :| 0 <= i < |v.members| && Part(p, v.members[i].val);
      PartOfPart(q, p, v.members[i].val);
    } else if key in ["items", "additionalProperties"] {
      PartOfPart(q, p, v);
    } else {
      var i :| 0 <= i < |v.items| && Part(p, v.items[i]);
      PartOfPart(q, p, v.items[i]);
    }
  }

  lemma PartInContract(q: Json, p: Json, schemas: seq<Json>, comps: Components)
    requires Part(q, p) && InContract(p, schemas, comps)
    ensures InContract(q, schemas, comps)
  {
    if i :| 0 <= i < |schemas| && Part(p, schemas[i]) {
      PartOfPart(q, p, schemas[i]);
    } else {
      var n :| n in comps && Part(p, comps[n]);
      PartOfPart(q, p, comps[n]);
    }
  }

  lemma KeywordPart(p: Json, o: seq<Member>, key: string)
    requires Reference(o).None? && Has(o, key) && ValuePart(p, key, Get(o, key).value)
    ensures Part(p, Obj(o))
  {
    var i :| 0 <= i < |o| && o[i].key == key && o[i].val == Get(o, key).value;
    assert ValuePart(p, Obj(o).members[i].key, Obj(o).members[i].val);
  }

  lemma BranchPart(o: seq<Member>, keyword: string, i: nat)
    requires Reference(o).None? && keyword in ["prefixItems", "anyOf", "oneOf", "allOf"] && i < |Branches(o, keyword)|
    ensures Part(Branches(o, keyword)[i], Obj(o))
  {
    var v := Get(o, keyword).value;
    assert Part(v.items[i], v.items[i]);
    KeywordPart(v.items[i], o, keyword);
  }

  // ---- Everything handed on is a part -----------------------------------------------------

  /** The task carries a part of the schema; a union carries all branches of its keyword. */
  ghost predicate GoalFrom(g: Goal, v: Json, node: Node, o: seq<Member>) {
    match g
    case All(t) => Part(t.schema, Obj(o))
    case Any(keyword, tasks) =>
      AsArray(Get(o, keyword)).Some? && tasks == Tasks(v, node, Branches(o, keyword)) &&
      forall i :: 0 <= i < |tasks| ==> Part(tasks[i].schema, Obj(o))
  }

  ghost predicate GoalsFrom(goals: seq<Goal>, v: Json, node: Node, o: seq<Member>) {
    forall i :: 0 <= i < |goals| ==> GoalFrom(goals[i], v, node, o)
  }

  lemma FromAppend(xs: seq<Goal>, ys: seq<Goal>, v: Json, node: Node, o: seq<Member>)
    requires GoalsFrom(xs, v, node, o) && GoalsFrom(ys, v, node, o)
    ensures GoalsFrom(xs + ys, v, node, o)
  {
  }

  lemma AnyFrom(v: Json, node: Node, o: seq<Member>, keyword: string)
    requires Reference(o).None? && keyword in ["anyOf", "oneOf"]
    ensures GoalsFrom(AnyGoals(v, node, o, keyword), v, node, o)
  {
    forall i | 0 <= i < |Branches(o, keyword)| ensures Part(Branches(o, keyword)[i], Obj(o)) { BranchPart(o, keyword, i); }
  }

  lemma BranchesFrom(v: Json, node: Node, o: seq<Member>)
    requires Reference(o).None?
    ensures GoalsFrom(BranchGoals(v, node, o), v, node, o)
  {
    var all := AllGoals(v, node, Branches(o, "allOf"));
    forall i | 0 <= i < |all| ensures GoalFrom(all[i], v, node, o) { BranchPart(o, "allOf", i); }
    AnyFrom(v, node, o, "anyOf");
    AnyFrom(v, node, o, "oneOf");
    FromAppend(all, AnyGoals(v, node, o, "anyOf"), v, node, o);
    FromAppend(all + AnyGoals(v, node, o, "anyOf"), AnyGoals(v, node, o, "oneOf"), v, node, o);
  }

  lemma ArrayFrom(v: Json, node: Node, o: seq<Member>)
    requires Reference(o).None?
    ensures GoalsFrom(ArrayGoals(v, node, o), v, node, o)
  {
    if v.Arr? {
      var from, schema := |Prefix(o)|, Get(o, "items");
      var first, rest := PrefixGoals(v.items, node, Prefix(o)), RestGoals(v.items, node, from, schema);
      forall i | 0 <= i < |first| ensures GoalFrom(first[i], v, node, o) { BranchPart(o, "prefixItems", i); }
      forall i | 0 <= i < |rest| ensures GoalFrom(rest[i], v, node, o) {
        assert rest[i] == ItemGoal(v.items, node, from + i, schema.value);
        KeywordPart(schema.value, o, "items");
      }
    }
  }

  lemma MemberSchemaPart(o: seq<Member>, key: string)
    requires Reference(o).None? && MemberSchema(Properties(o), Additional(o), key).Some?
    ensures Part(MemberSchema(Properties(o), Additional(o), key).value, Obj(o))
  {
    var schema := MemberSchema(Properties(o), Additional(o), key).value;
    if Has(Properties(o), key) {
      var i :| 0 <= i < |Properties(o)| && Properties(o)[i].key == key && Properties(o)[i].val == schema;
      assert Part(schema, Get(o, "properties").value.members[i].val);
      KeywordPart(schema, o, "properties");
    } else {
      KeywordPart(schema, o, "additionalProperties");
    }
  }

  lemma {:induction false} MembersFrom(ms: seq<Member>, v: Json, node: Node, o: seq<Member>)
    requires Reference(o).None?
    ensures GoalsFrom(MemberGoals(ms, node, Properties(o), Additional(o)), v, node, o)
  {
    if ms != [] {
      var m := ms[|ms| - 1];
      MembersFrom(ms[..|ms| - 1], v, node, o);
      if MemberSchema(Properties(o), Additional(o), m.key).Some? { MemberSchemaPart(o, m.key); }
      FromAppend(MemberGoals(ms[..|ms| - 1], node, Properties(o), Additional(o)),
                 MemberGoal(m, node, Properties(o), Additional(o)), v, node, o);
    }
  }

  lemma NodeFrom(v: Json, node: Node, o: seq<Member>)
    requires Reference(o).None?
    ensures GoalsFrom(Goals(v, node, o), v, node, o)
  {
    BranchesFrom(v, node, o);
    ArrayFrom(v, node, o);
    if v.Obj? { MembersFrom(v.members, v, node, o); }
    FromAppend(ArrayGoals(v, node, o), ObjectGoals(v, node, o), v, node, o);
    FromAppend(BranchGoals(v, node, o), ArrayGoals(v, node, o) + ObjectGoals(v, node, o), v, node, o);
  }
}
