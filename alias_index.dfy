/** The alias index of the challenge splitter (`create_name_to_group_mapping`):
    from roster rows it builds `name_to_group`, which sends every lower-cased
    performer name, group name and Korean group name to a canonical group key
    (the lower-cased English group name), and `group_to_members`, which sends
    each group key to the set of its performers' lower-cased names.

    The builder is an imperative method with two passes, proved against the
    functions below, which fold the same assignments over the rows. */
module AliasIndex {
  import opened Common
  import opened Text

  /** One roster row: `name (english)`, `name (korean)`, `group (english)`,
      `group (korean)`. */
  datatype Idol = Idol(name: string, koreanName: string, group: string, koreanGroup: string)

  function GroupKey(r: Idol): string { Lower(r.group) }

  /** The two names a row registers in the member pass. */
  function Aliases(r: Idol): set<string> { {Lower(r.name), Lower(r.koreanName)} }

  predicate HasGroup(rows: seq<Idol>, g: string)
  {
    exists i :: 0 <= i < |rows| && GroupKey(rows[i]) == g
  }

  // ---- the member pass (source lines 17-29), one row at a time ----

  /** `name_to_group` after the member pass over `rows`. */
  function MemberNames(rows: seq<Idol>): map<string, string>
  {
    if rows == [] then map[]
    else
      var r := rows[|rows| - 1];
      MemberNames(rows[..|rows| - 1])[Lower(r.name) := GroupKey(r)][Lower(r.koreanName) := GroupKey(r)]
  }

  /** `group_to_members` after the member pass over `rows`. */
  function Members(rows: seq<Idol>): map<string, set<string>>
  {
    if rows == [] then map[]
    else
      var r := rows[|rows| - 1];
      var m := Members(rows[..|rows| - 1]);
      var old_ := if GroupKey(r) in m then m[GroupKey(r)] else {};
      m[GroupKey(r) := old_ + {Lower(r.name)} + {Lower(r.koreanName)}]
  }

  /** The keys of `group_to_members` in the order a Python dict iterates them:
      by first insertion. */
  function GroupOrder(rows: seq<Idol>): seq<string>
  {
    if rows == [] then []
    else
      var o := GroupOrder(rows[..|rows| - 1]);
      if GroupKey(rows[|rows| - 1]) in o then o else o + [GroupKey(rows[|rows| - 1])]
  }

  /** The dict order lists each key of `group_to_members` exactly once. */
  lemma {:induction false} GroupOrderExact(rows: seq<Idol>)
    ensures forall g :: g in GroupOrder(rows) <==> g in Members(rows)
    ensures forall j, k :: 0 <= j < k < |GroupOrder(rows)| ==> GroupOrder(rows)[j] != GroupOrder(rows)[k]
  {
    if rows != [] {
      GroupOrderExact(rows[..|rows| - 1]);
    }
  }

  /** `idol_data[idol_data['group (english)'].str.lower() == g]['group (korean)'].iloc[0].lower()`:
      the lower-cased Korean group name of the first row of group `g`, or
      `None` where `iloc[0]` would raise. */
  function KoreanGroupOf(rows: seq<Idol>, g: string): (r: Option<string>)
    ensures r.Some? <==> HasGroup(rows, g)
  {
    if rows == [] then None
    else if GroupKey(rows[0]) == g then Some(Lower(rows[0].koreanGroup))
    else
      assert HasGroup(rows[1..], g) <==> HasGroup(rows, g) by {
        if HasGroup(rows, g) {
          var i :| 0 <= i < |rows| && GroupKey(rows[i]) == g;
          assert rows[1..][i - 1] == rows[i];
        }
      }
      KoreanGroupOf(rows[1..], g)
  }

  /** The lookup takes the Korean group name of the FIRST row of the group. */
  lemma {:induction false} KoreanGroupOfFirst(rows: seq<Idol>, g: string, i: nat)
    requires i < |rows| && GroupKey(rows[i]) == g
    requires forall j :: 0 <= j < i ==> GroupKey(rows[j]) != g
    ensures KoreanGroupOf(rows, g) == Some(Lower(rows[i].koreanGroup))
  {
    if i > 0 {
      forall j | 0 <= j < i - 1 ensures GroupKey(rows[1..][j]) != g { assert rows[1..][j] == rows[j + 1]; }
      KoreanGroupOfFirst(rows[1..], g, i - 1);
    }
  }

  // ---- the group pass (source lines 32-36), one group at a time ----

  predicate AllLookupsSucceed(rows: seq<Idol>, groups: seq<string>)
  {
    forall k :: 0 <= k < |groups| ==> HasGroup(rows, groups[k])
  }

  lemma LookupsPrefix(rows: seq<Idol>, groups: seq<string>, k: nat)
    requires AllLookupsSucceed(rows, groups) && k <= |groups|
    ensures AllLookupsSucceed(rows, groups[..k])
  {
    assert forall j :: 0 <= j < k ==> groups[..k][j] == groups[j];
  }

  /** `name_to_group` after registering, for each group `g` of `groups` in
      turn, `g` itself and then `g`'s Korean group name. */
  function GroupNames(m: map<string, string>, rows: seq<Idol>, groups: seq<string>): map<string, string>
    requires AllLookupsSucceed(rows, groups)
  {
    if groups == [] then m
    else
      var g := groups[|groups| - 1];
      var m' := GroupNames(m, rows, groups[..|groups| - 1]);
      m'[g := g][KoreanGroupOf(rows, g).value := g]
  }

  /** The keys one group writes in the group pass. */
  function Written(rows: seq<Idol>, g: string): set<string>
    requires HasGroup(rows, g)
  {
    {g, KoreanGroupOf(rows, g).value}
  }

  /** `iloc[0]` never raises: every key of `group_to_members` was produced by
      lower-casing some row's English group name. */
  lemma {:induction false} KoreanGroupLookupSucceeds(rows: seq<Idol>, g: string)
    requires g in Members(rows)
    ensures HasGroup(rows, g) && KoreanGroupOf(rows, g).Some?
  {
    MembersExact(rows, g, g);
  }

  lemma OrderLookupsSucceed(rows: seq<Idol>)
    ensures AllLookupsSucceed(rows, GroupOrder(rows))
  {
    GroupOrderExact(rows);
    forall k | 0 <= k < |GroupOrder(rows)| ensures HasGroup(rows, GroupOrder(rows)[k]) {
      KoreanGroupLookupSucceeds(rows, GroupOrder(rows)[k]);
    }
  }

  /** The `name_to_group` the builder returns. */
  function NameToGroup(rows: seq<Idol>): map<string, string>
  {
    OrderLookupsSucceed(rows);
    GroupNames(MemberNames(rows), rows, GroupOrder(rows))
  }

  // ---- properties ----

  /** `group_to_members` has exactly the lower-cased English group names as
      keys, and each group's set is exactly the lower-cased English and Korean
      performer names of its rows. */
  lemma {:induction false} MembersExact(rows: seq<Idol>, g: string, a: string)
    ensures g in Members(rows) <==> HasGroup(rows, g)
    ensures g in Members(rows) ==>
      (a in Members(rows)[g] <==> exists i :: 0 <= i < |rows| && GroupKey(rows[i]) == g && a in Aliases(rows[i]))
  {
    if rows != [] {
      var init := rows[..|rows| - 1];
      var r := rows[|rows| - 1];
      MembersExact(init, g, a);
      assert forall i :: 0 <= i < |init| ==> init[i] == rows[i];
      if HasGroup(rows, g) && GroupKey(r) != g {
        var i :| 0 <= i < |rows| && GroupKey(rows[i]) == g;
        assert i < |init| && GroupKey(init[i]) == g;
      }
      if g in Members(rows) && a in Members(rows)[g] && !(GroupKey(r) == g && a in Aliases(r)) {
        var i :| 0 <= i < |init| && GroupKey(init[i]) == g && a in Aliases(init[i]);
        assert rows[i] == init[i];
      }
      if exists i :: 0 <= i < |rows| && GroupKey(rows[i]) == g && a in Aliases(rows[i]) {
        var i :| 0 <= i < |rows| && GroupKey(rows[i]) == g && a in Aliases(rows[i]);
        if i < |init| { assert GroupKey(init[i]) == g && a in Aliases(init[i]); }
      }
    }
  }

  /** After the member pass, a name is a key exactly when some row registers
      it, and it maps to the group of the LAST row that registers it
      (last write wins on collisions). */
  lemma {:induction false} MemberNamesLastWins(rows: seq<Idol>, a: string, i: nat)
    requires i < |rows| && a in Aliases(rows[i])
    requires forall j :: i < j < |rows| ==> a !in Aliases(rows[j])
    ensures a in MemberNames(rows) && MemberNames(rows)[a] == GroupKey(rows[i])
  {
    var init := rows[..|rows| - 1];
    if i < |rows| - 1 {
      forall j | i < j < |init| ensures a !in Aliases(init[j]) { assert init[j] == rows[j]; }
      MemberNamesLastWins(init, a, i);
    }
  }

  lemma {:induction false} MemberNamesKeys(rows: seq<Idol>, a: string)
    ensures a in MemberNames(rows) <==> exists i :: 0 <= i < |rows| && a in Aliases(rows[i])
  {
    if rows != [] {
      var init := rows[..|rows| - 1];
      MemberNamesKeys(init, a);
      if exists i :: 0 <= i < |rows| && a in Aliases(rows[i]) {
        var i :| 0 <= i < |rows| && a in Aliases(rows[i]);
        if i < |init| { assert init[i] == rows[i]; }
      }
      if a in MemberNames(init) {
        var i :| 0 <= i < |init| && a in Aliases(init[i]);
        assert init[i] == rows[i];
      }
    }
  }

  /** The group pass only adds keys, and a key it does not write keeps its
      value. */
  lemma {:induction false} GroupNamesUntouched(m: map<string, string>, rows: seq<Idol>, groups: seq<string>, a: string)
    requires AllLookupsSucceed(rows, groups)
    requires forall k :: 0 <= k < |groups| ==> a !in Written(rows, groups[k])
    ensures a in GroupNames(m, rows, groups) <==> a in m
    ensures a in m ==> GroupNames(m, rows, groups)[a] == m[a]
  {
    if groups != [] {
      GroupNamesUntouched(m, rows, groups[..|groups| - 1], a);
      assert a !in Written(rows, groups[|groups| - 1]);
    }
  }

  /** In the group pass the last group that writes a key decides its value. */
  lemma {:induction false} GroupNamesLastWrite(m: map<string, string>, rows: seq<Idol>, groups: seq<string>, a: string, k: nat)
    requires AllLookupsSucceed(rows, groups)
    requires k < |groups| && a in Written(rows, groups[k])
    requires forall j :: k < j < |groups| ==> a !in Written(rows, groups[j])
    ensures a in GroupNames(m, rows, groups) && GroupNames(m, rows, groups)[a] == groups[k]
  {
    var init := groups[..|groups| - 1];
    if k < |groups| - 1 {
      assert AllLookupsSucceed(rows, init) by {
        forall j | 0 <= j < |init| ensures HasGroup(rows, init[j]) { assert init[j] == groups[j]; }
      }
      forall j | k < j < |init| ensures a !in Written(rows, init[j]) { assert init[j] == groups[j]; }
      GroupNamesLastWrite(m, rows, init, a, k);
      assert a !in Written(rows, groups[|groups| - 1]);
    }
  }

  lemma {:induction false} GroupNamesKeys(m: map<string, string>, rows: seq<Idol>, groups: seq<string>, a: string)
    requires AllLookupsSucceed(rows, groups)
    ensures a in GroupNames(m, rows, groups) <==> a in m || exists k :: 0 <= k < |groups| && a in Written(rows, groups[k])
  {
    if groups != [] {
      var init := groups[..|groups| - 1];
      assert AllLookupsSucceed(rows, init) by {
        forall j | 0 <= j < |init| ensures HasGroup(rows, init[j]) { assert init[j] == groups[j]; }
      }
      GroupNamesKeys(m, rows, init, a);
      if exists k :: 0 <= k < |groups| && a in Written(rows, groups[k]) {
        var k :| 0 <= k < |groups| && a in Written(rows, groups[k]);
        if k < |init| { assert init[k] == groups[k]; }
      }
      if exists k :: 0 <= k < |init| && a in Written(rows, init[k]) {
        var k :| 0 <= k < |init| && a in Written(rows, init[k]);
        assert init[k] == groups[k];
      }
    }
  }

  /** The key set of `name_to_group` is every registered performer name, every
      group key, and every group's Korean group name; in particular it
      contains every alias in `group_to_members`. */
  lemma NameToGroupKeys(rows: seq<Idol>, a: string)
    ensures a in NameToGroup(rows) <==>
      (exists i :: 0 <= i < |rows| && a in Aliases(rows[i]))
      || a in Members(rows)
      || (exists g :: g in Members(rows) && KoreanGroupOf(rows, g) == Some(a))
  {
    OrderLookupsSucceed(rows);
    GroupOrderExact(rows);
    var order := GroupOrder(rows);
    GroupNamesKeys(MemberNames(rows), rows, order, a);
    MemberNamesKeys(rows, a);
    if exists g :: g in Members(rows) && KoreanGroupOf(rows, g) == Some(a) {
      var g :| g in Members(rows) && KoreanGroupOf(rows, g) == Some(a);
      var k :| 0 <= k < |order| && order[k] == g;
      assert a in Written(rows, order[k]);
    }
    if a in Members(rows) {
      var k :| 0 <= k < |order| && order[k] == a;
      assert a in Written(rows, order[k]);
    }
    if exists k :: 0 <= k < |order| && a in Written(rows, order[k]) {
      var k :| 0 <= k < |order| && a in Written(rows, order[k]);
      assert order[k] in Members(rows);
    }
  }

  /** In particular every alias in `group_to_members` is a key of
      `name_to_group`. */
  lemma MemberAliasesAreKeys(rows: seq<Idol>, g: string, a: string)
    requires g in Members(rows) && a in Members(rows)[g]
    ensures a in NameToGroup(rows)
  {
    MembersExact(rows, g, a);
    NameToGroupKeys(rows, a);
  }

  /** A group key maps to itself, even when a performer has the same name
      (the group pass runs after the member pass), provided no group LATER in
      dict order has that key as its Korean group name; earlier groups that
      wrote it are overridden. Otherwise the converse holds, see
      `GroupKeyTakenOver`. */
  lemma GroupKeyMapsToItself(rows: seq<Idol>, g: string, k: nat)
    requires k < |GroupOrder(rows)| && GroupOrder(rows)[k] == g
    requires forall j :: k < j < |GroupOrder(rows)| ==> KoreanGroupOf(rows, GroupOrder(rows)[j]) != Some(g)
    ensures g in NameToGroup(rows) && NameToGroup(rows)[g] == g
  {
    OrderLookupsSucceed(rows);
    GroupOrderExact(rows);
    var order := GroupOrder(rows);
    forall j | k < j < |order| ensures g !in Written(rows, order[j]) {
      assert order[j] != order[k];
    }
    GroupNamesLastWrite(MemberNames(rows), rows, order, g, k);
  }

  /** A group key is taken over by the last group after it in dict order
      whose Korean group name is that key. */
  lemma GroupKeyTakenOver(rows: seq<Idol>, g: string, k: nat, j: nat)
    requires k < j < |GroupOrder(rows)| && GroupOrder(rows)[k] == g
    requires KoreanGroupOf(rows, GroupOrder(rows)[j]) == Some(g)
    requires forall l :: j < l < |GroupOrder(rows)| ==> KoreanGroupOf(rows, GroupOrder(rows)[l]) != Some(g)
    ensures g in NameToGroup(rows) && NameToGroup(rows)[g] == GroupOrder(rows)[j]
  {
    OrderLookupsSucceed(rows);
    GroupOrderExact(rows);
    var order := GroupOrder(rows);
    forall l | j < l < |order| ensures g !in Written(rows, order[l]) {
      assert order[l] != order[k];
    }
    GroupNamesLastWrite(MemberNames(rows), rows, order, g, j);
  }

  /** A group's Korean group name maps to that group unless another group
      has the same English key or Korean group name. */
  lemma KoreanGroupMapsToGroup(rows: seq<Idol>, g: string)
    requires g in Members(rows)
    requires forall h :: h in Members(rows) && h != g ==> Some(h) != KoreanGroupOf(rows, g) && KoreanGroupOf(rows, h) != KoreanGroupOf(rows, g)
    ensures KoreanGroupOf(rows, g).Some?
    ensures KoreanGroupOf(rows, g).value in NameToGroup(rows) && NameToGroup(rows)[KoreanGroupOf(rows, g).value] == g
  {
    OrderLookupsSucceed(rows);
    KoreanGroupLookupSucceeds(rows, g);
    GroupOrderExact(rows);
    var order := GroupOrder(rows);
    var kg := KoreanGroupOf(rows, g).value;
    var k :| 0 <= k < |order| && order[k] == g;
    forall j | k < j < |order| ensures kg !in Written(rows, order[j]) {
      assert order[j] in Members(rows) && order[j] != g;
    }
    GroupNamesLastWrite(MemberNames(rows), rows, order, kg, k);
  }

  /** A performer name that no group writes in the group pass keeps the group
      of the last row that registered it. */
  lemma MemberAliasLastWriteWins(rows: seq<Idol>, a: string, i: nat)
    requires i < |rows| && a in Aliases(rows[i])
    requires forall j :: i < j < |rows| ==> a !in Aliases(rows[j])
    requires a !in Members(rows) && forall g :: g in Members(rows) ==> KoreanGroupOf(rows, g) != Some(a)
    ensures a in NameToGroup(rows) && NameToGroup(rows)[a] == GroupKey(rows[i])
  {
    OrderLookupsSucceed(rows);
    NoGroupWrites(rows, a);
    MemberNamesLastWins(rows, a, i);
    GroupNamesUntouched(MemberNames(rows), rows, GroupOrder(rows), a);
  }

  lemma NoGroupWrites(rows: seq<Idol>, a: string)
    requires a !in Members(rows) && forall g :: g in Members(rows) ==> KoreanGroupOf(rows, g) != Some(a)
    ensures AllLookupsSucceed(rows, GroupOrder(rows))
    ensures forall k :: 0 <= k < |GroupOrder(rows)| ==> a !in Written(rows, GroupOrder(rows)[k])
  {
    OrderLookupsSucceed(rows);
    GroupOrderExact(rows);
    var order := GroupOrder(rows);
    forall k | 0 <= k < |order| ensures a !in Written(rows, order[k]) {
      assert order[k] in Members(rows);
    }
  }

  /** The last-write-wins order also reaches group keys: here the second
      group's Korean group name is the first group's key, and takes it over. */
  lemma GroupKeyCanBeTakenOver()
    ensures var rows := [Idol("a", "b", "X", "y"), Idol("c", "d", "Z", "x")];
      "x" in NameToGroup(rows) && NameToGroup(rows)["x"] == "z"
  {
    var rows := [Idol("a", "b", "X", "y"), Idol("c", "d", "Z", "x")];
    assert Lower("X") == "x" && Lower("Z") == "z" && Lower("x") == "x";
    assert rows[..1] == [rows[0]] && rows[..1][..0] == [];
    assert GroupOrder(rows[..1]) == ["x"];
    assert GroupOrder(rows) == ["x", "z"];
    assert KoreanGroupOf(rows[1..], "z") == Some("x");
    assert KoreanGroupOf(rows, "z") == Some("x");
    OrderLookupsSucceed(rows);
    GroupNamesLastWrite(MemberNames(rows), rows, ["x", "z"], "x", 1);
  }

  // ---- the builder ----

  /** `create_name_to_group_mapping`: the member pass, then the group pass
      over the keys of `group_to_members` in dict order. */
  method CreateNameToGroupMapping(rows: seq<Idol>) returns (nameToGroup: map<string, string>, groupToMembers: map<string, set<string>>)
    ensures groupToMembers == Members(rows)
    ensures nameToGroup == NameToGroup(rows)
  {
    var afterMembers, order;
    afterMembers, groupToMembers, order := RegisterMembers(rows);
    OrderLookupsSucceed(rows);
    nameToGroup := RegisterGroups(afterMembers, rows, order);
  }

  /** The member loop (source lines 17-29). `order` records the insertion
      order of `group_to_members`. The `k_group` computed in the loop is
      never used, as in the source. */
  method RegisterMembers(rows: seq<Idol>)
    returns (nameToGroup: map<string, string>, groupToMembers: map<string, set<string>>, order: seq<string>)
    ensures nameToGroup == MemberNames(rows)
    ensures groupToMembers == Members(rows)
    ensures order == GroupOrder(rows)
  {
    nameToGroup, groupToMembers, order := map[], map[], [];
    for i := 0 to |rows|
      invariant nameToGroup == MemberNames(rows[..i])
      invariant groupToMembers == Members(rows[..i])
      invariant order == GroupOrder(rows[..i])
    {
      ghost var n0, g0 := nameToGroup, groupToMembers;
      assert rows[..i + 1][..i] == rows[..i];
      GroupOrderExact(rows[..i]);
      var row := rows[i];
      var name := Lower(row.name);
      var group := Lower(row.group);
      nameToGroup := nameToGroup[name := group];
      if group !in groupToMembers {
        groupToMembers := groupToMembers[group := {}];
        order := order + [group];
      }
      groupToMembers := groupToMembers[group := groupToMembers[group] + {name}];
      var kName := Lower(row.koreanName);
      var kGroup := Lower(row.koreanGroup);
      nameToGroup := nameToGroup[kName := group];
      groupToMembers := groupToMembers[group := groupToMembers[group] + {kName}];
      assert nameToGroup == n0[name := group][kName := group];
      assert groupToMembers == g0[group := (if group in g0 then g0[group] else {}) + {name} + {kName}];
    }
    assert rows[..|rows|] == rows;
  }

  /** The group loop (source lines 32-36). */
  method RegisterGroups(afterMembers: map<string, string>, rows: seq<Idol>, order: seq<string>)
    returns (nameToGroup: map<string, string>)
    requires AllLookupsSucceed(rows, order)
    ensures nameToGroup == GroupNames(afterMembers, rows, order)
  {
    nameToGroup := afterMembers;
    for k := 0 to |order|
      invariant nameToGroup == GroupNames(afterMembers, rows, order[..k])
    {
      LookupsPrefix(rows, order, k + 1);
      assert order[..k + 1][..k] == order[..k];
      var group := order[k];
      nameToGroup := nameToGroup[group := group];
      var kGroup := KoreanGroupOf(rows, group);
      nameToGroup := nameToGroup[kGroup.value := group];
    }
    assert order[..|order|] == order;
  }
}
