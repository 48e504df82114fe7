/**
 * Argument-group helpers and validator wrapping (argument_parsing.py).
 *
 * An argparse parser keeps its argument groups in the list `_action_groups`.
 * A group is modelled as a value with an identity number (`id`) standing for
 * the Python object and a title that may be `None`; the parser hands out a
 * fresh identity whenever it creates a group.  A Python dict is an
 * insertion-ordered association list with distinct keys.
 */
module ArgumentParsing {
  import opened Wrappers
  import opened Exceptions

  datatype Group = Group(id: nat, title: Option<string>)

  // ----- insertion-ordered dictionaries -----

  type Dict<V> = seq<(string, V)>

  function Keys<V>(d: Dict<V>): (ks: seq<string>)
    ensures |ks| == |d| && forall i :: 0 <= i < |d| ==> ks[i] == d[i].0
  {
    if d == [] then [] else [d[0].0] + Keys(d[1..])
  }

  function Values<V>(d: Dict<V>): (vs: seq<V>)
    ensures |vs| == |d| && forall i :: 0 <= i < |d| ==> vs[i] == d[i].1
  {
    if d == [] then [] else [d[0].1] + Values(d[1..])
  }

  predicate DistinctKeys<V>(d: Dict<V>) {
    forall i, j :: 0 <= i < j < |d| ==> d[i].0 != d[j].0
  }

  /** The position of the first occurrence of `k` in `ks`. */
  function Find(ks: seq<string>, k: string): (r: Option<nat>)
    ensures r.Some? ==> r.value < |ks| && ks[r.value] == k
    ensures r.Some? ==> forall j :: 0 <= j < r.value ==> ks[j] != k
    ensures r.None? <==> k !in ks
  {
    if ks == [] then None
    else if ks[0] == k then Some(0)
    else match Find(ks[1..], k)
      case None => None
      case Some(i) => Some(i + 1)
  }

  /** `d[k]`, with `None` where the subscript raises KeyError. */
  function Lookup<V>(d: Dict<V>, k: string): (r: Option<V>)
    ensures r.Some? <==> k in Keys(d)
    ensures r.Some? ==> exists i :: 0 <= i < |d| && d[i] == (k, r.value)
  {
    match Find(Keys(d), k)
    case None => None
    case Some(i) => Some(d[i].1)
  }

  /** `d[k] = v`: a new key goes last, an existing key keeps its place and takes the new value. */
  function Put<V>(d: Dict<V>, k: string, v: V): (r: Dict<V>)
    ensures Keys(r) == if k in Keys(d) then Keys(d) else Keys(d) + [k]
    ensures k !in Keys(d) ==> r == d + [(k, v)]
    ensures forall i :: 0 <= i < |r| ==> r[i] == (k, v) || (i < |d| && r[i] == d[i])
    ensures Lookup(r, k) == Some(v)
  {
    match Find(Keys(d), k)
    case None =>
      assert Keys(d + [(k, v)]) == Keys(d) + [k];
      d + [(k, v)]
    case Some(i) =>
      var r := d[i := (k, v)];
      assert Keys(r) == Keys(d);
      r
  }

  /** Storing a key leaves every other key's value as it was. */
  lemma PutLookupOther<V>(d: Dict<V>, k: string, v: V, other: string)
    requires other != k
    ensures Lookup(Put(d, k, v), other) == Lookup(d, other)
  {
    var r := Put(d, k, v);
    if k !in Keys(d) {
      FindAppend(Keys(d), k, other);
      assert r == d + [(k, v)];
    } else {
      assert Keys(r) == Keys(d);
      match Find(Keys(d), other)
      case None =>
      case Some(i) =>
        var j := Find(Keys(d), k).value;
        assert r == d[j := (k, v)];
        assert i != j;
    }
  }

  lemma {:induction false} FindAppend(ks: seq<string>, x: string, k: string)
    requires k != x
    ensures Find(ks + [x], k) == Find(ks, k)
  {
    if ks != [] {
      assert (ks + [x])[1..] == ks[1..] + [x];
      FindAppend(ks[1..], x, k);
    }
  }

  /** Storing a key never duplicates a key. */
  lemma PutKeepsKeysDistinct<V>(d: Dict<V>, k: string, v: V)
    requires DistinctKeys(d)
    ensures DistinctKeys(Put(d, k, v))
  {
    var r := Put(d, k, v);
    assert forall i :: 0 <= i < |r| ==> r[i].0 == Keys(r)[i];
    assert forall i :: 0 <= i < |d| ==> d[i].0 == Keys(d)[i];
  }

  /** `{**a, **b}` */
  function Merge<V>(a: Dict<V>, b: Dict<V>): (r: Dict<V>)
    decreases |b|
  {
    if b == [] then a else Merge(Put(a, b[0].0, b[0].1), b[1..])
  }

  /** A key of `{**a, **b}` takes `b`'s value when `b` has it, and `a`'s otherwise. */
  lemma {:induction false} MergeLookup<V>(a: Dict<V>, b: Dict<V>, k: string)
    requires DistinctKeys(b)
    ensures Lookup(Merge(a, b), k) == if k in Keys(b) then Lookup(b, k) else Lookup(a, k)
    decreases |b|
  {
    if b != [] {
      var tail := b[1..];
      DistinctKeysTail(b);
      LookupCons(b, k);
      MergeLookup(Put(a, b[0].0, b[0].1), tail, k);
      if k != b[0].0 {
        PutLookupOther(a, b[0].0, b[0].1, k);
      }
    }
  }

  lemma DistinctKeysTail<V>(d: Dict<V>)
    requires d != [] && DistinctKeys(d)
    ensures DistinctKeys(d[1..]) && d[0].0 !in Keys(d[1..])
  {
    var tail := d[1..];
    forall i, j | 0 <= i < j < |tail| ensures tail[i].0 != tail[j].0 {
      assert tail[i] == d[i + 1] && tail[j] == d[j + 1];
    }
  }

  /** Looking a key up in a dict that starts with a given entry. */
  lemma LookupCons<V>(d: Dict<V>, k: string)
    requires d != []
    ensures Keys(d) == [d[0].0] + Keys(d[1..])
    ensures Lookup(d, k) == if d[0].0 == k then Some(d[0].1) else Lookup(d[1..], k)
  {
    var ks := Keys(d);
    assert ks == [d[0].0] + Keys(d[1..]);
    if d[0].0 != k {
      match Find(Keys(d[1..]), k)
      case None =>
      case Some(i) =>
        assert Find(ks, k) == Some(i + 1);
    }
  }

  // ----- finding a group by title -----

  /** The position of the first group of `groups` whose title is `title`. */
  function FirstTitled(groups: seq<Group>, title: string): (r: Option<nat>)
    ensures r.Some? ==> r.value < |groups| && groups[r.value].title == Some(title)
    ensures r.Some? ==> forall j :: 0 <= j < r.value ==> groups[j].title != Some(title)
    ensures r.None? ==> forall j :: 0 <= j < |groups| ==> groups[j].title != Some(title)
  {
    if groups == [] then None
    else if groups[0].title == Some(title) then Some(0)
    else match FirstTitled(groups[1..], title)
      case None => None
      case Some(i) => Some(i + 1)
  }

  /** The group found by `FirstTitled`, if any. */
  function FindTitled(groups: seq<Group>, title: string): (r: Option<Group>)
    ensures r.Some? <==> exists i :: 0 <= i < |groups| && groups[i].title == Some(title)
    ensures r.Some? ==> r.value in groups && r.value.title == Some(title)
  {
    match FirstTitled(groups, title)
    case None => None
    case Some(i) => Some(groups[i])
  }

  lemma FirstTitledAt(groups: seq<Group>, title: string, k: nat)
    requires k < |groups| && groups[k].title == Some(title)
    requires forall j :: 0 <= j < k ==> groups[j].title != Some(title)
    ensures FirstTitled(groups, title) == Some(k)
  {
  }

  /** Removing a group with another title does not change which group a title finds. */
  lemma FindTitledAfterRemoval(groups: seq<Group>, i: nat, title: string)
    requires i < |groups| && groups[i].title != Some(title)
    ensures FindTitled(groups[..i] + groups[i + 1..], title) == FindTitled(groups, title)
  {
    var rest := groups[..i] + groups[i + 1..];
    assert forall j :: 0 <= j < i ==> rest[j] == groups[j];
    assert forall j :: i <= j < |rest| ==> rest[j] == groups[j + 1];
    match FirstTitled(groups, title)
    case None =>
      assert FirstTitled(rest, title).None?;
    case Some(k) =>
      if k < i {
        FirstTitledAt(rest, title, k);
      } else {
        FirstTitledAt(rest, title, k - 1);
      }
  }

  // ----- get_arg_groups_by_name, as values -----

  /** The state after some of the requested names have been handled: the groups
      still in the parser's list, the dict `specified_groups`, and the next identity. */
  datatype Selection = Selection(remaining: seq<Group>, specified: Dict<Group>, nextId: nat)

  /** One iteration of the `for name in names` loop: take the first group with the
      title out of the list, or create one (and take it out again). */
  function SelectStep(s: Selection, name: string): Selection {
    match FirstTitled(s.remaining, name)
    case Some(i) =>
      Selection(s.remaining[..i] + s.remaining[i + 1..], Put(s.specified, name, s.remaining[i]), s.nextId)
    case None =>
      Selection(s.remaining, Put(s.specified, name, Group(s.nextId, Some(name))), s.nextId + 1)
  }

  /** The whole `for name in names` loop. */
  function SelectAll(groups: seq<Group>, nextId: nat, names: seq<string>): Selection {
    if names == [] then Selection(groups, [], nextId)
    else SelectStep(SelectAll(groups, nextId, names[..|names| - 1]), names[|names| - 1])
  }

  /** One more name of the loop is one more `SelectStep`. */
  lemma SelectAllPrefixStep(groups: seq<Group>, nextId: nat, names: seq<string>, n: nat)
    requires n < |names|
    ensures SelectAll(groups, nextId, names[..n + 1]) == SelectStep(SelectAll(groups, nextId, names[..n]), names[n])
  {
    assert names[..n + 1][..n] == names[..n];
  }

  /** `ag.title in ["options", "optional arguments"]` leads to a rename. */
  function RenameOptional(g: Group, optionalArgumentsName: string): (r: Group)
    ensures r.id == g.id
    ensures g.title in {Some("options"), Some("optional arguments")} ==> r.title == Some(optionalArgumentsName)
    ensures g.title !in {Some("options"), Some("optional arguments")} ==> r == g
  {
    if g.title == Some("options") || g.title == Some("optional arguments")
    then g.(title := Some(optionalArgumentsName))
    else g
  }

  /** `if ag.title:` -- a title that is neither `None` nor empty. */
  predicate HasTitle(g: Group) {
    g.title.Some? && g.title.value != ""
  }

  /** The `while` loop that empties the list from the end into `additional_groups`. */
  function CollectAdditional(groups: seq<Group>, optionalArgumentsName: string): Dict<Group> {
    if groups == [] then []
    else
      var rest := CollectAdditional(groups[1..], optionalArgumentsName);
      var g := RenameOptional(groups[0], optionalArgumentsName);
      if HasTitle(g) then Put(rest, g.title.value, g) else rest
  }

  /** Reference order of the groups left in the list: renamed, untitled ones dropped,
      last group first. */
  function Surviving(groups: seq<Group>, optionalArgumentsName: string): (r: seq<Group>)
    ensures forall g :: g in r ==> HasTitle(g)
  {
    if groups == [] then []
    else
      var g := RenameOptional(groups[0], optionalArgumentsName);
      Surviving(groups[1..], optionalArgumentsName) + (if HasTitle(g) then [g] else [])
  }

  predicate DistinctTitles(gs: seq<Group>) {
    forall i, j :: 0 <= i < j < |gs| ==> gs[i].title != gs[j].title
  }

  predicate DistinctNames(names: seq<string>) {
    forall i, j :: 0 <= i < j < |names| ==> names[i] != names[j]
  }

  /** `CollectAdditional` from position `m` on: the group at `m`, renamed, is filed
      over what the groups after it give. */
  lemma CollectAdditionalAt(gs: seq<Group>, m: nat, optionalArgumentsName: string)
    requires m < |gs|
    ensures var g := RenameOptional(gs[m], optionalArgumentsName);
      var rest := CollectAdditional(gs[m + 1..], optionalArgumentsName);
      CollectAdditional(gs[m..], optionalArgumentsName) == if HasTitle(g) then Put(rest, g.title.value, g) else rest
  {
    assert gs[m..][1..] == gs[m + 1..];
  }

  /** `additional_groups` files every surviving group under its title: its keys are
      distinct, they are exactly the surviving titles, and each value is a surviving
      group whose title is its key. */
  lemma CollectAdditionalEntries(groups: seq<Group>, optionalArgumentsName: string)
    ensures var d := CollectAdditional(groups, optionalArgumentsName);
      && DistinctKeys(d)
      && (forall t :: t in Keys(d) <==> exists g :: g in Surviving(groups, optionalArgumentsName) && g.title == Some(t))
      && (forall i :: 0 <= i < |d| ==> d[i].1.title == Some(d[i].0) && d[i].1 in Surviving(groups, optionalArgumentsName))
  {
    CollectAdditionalDistinct(groups, optionalArgumentsName);
    CollectAdditionalKeys(groups, optionalArgumentsName);
    CollectAdditionalValues(groups, optionalArgumentsName);
  }

  lemma {:induction false} CollectAdditionalDistinct(groups: seq<Group>, optionalArgumentsName: string)
    ensures DistinctKeys(CollectAdditional(groups, optionalArgumentsName))
  {
    if groups != [] {
      var o := optionalArgumentsName;
      CollectAdditionalDistinct(groups[1..], o);
      var g := RenameOptional(groups[0], o);
      if HasTitle(g) {
        PutKeepsKeysDistinct(CollectAdditional(groups[1..], o), g.title.value, g);
      }
    }
  }

  lemma {:induction false} CollectAdditionalKeys(groups: seq<Group>, optionalArgumentsName: string)
    ensures forall t :: t in Keys(CollectAdditional(groups, optionalArgumentsName)) <==>
      exists g :: g in Surviving(groups, optionalArgumentsName) && g.title == Some(t)
  {
    if groups != [] {
      var o := optionalArgumentsName;
      var tail := groups[1..];
      CollectAdditionalKeys(tail, o);
      var rest := CollectAdditional(tail, o);
      var st := Surviving(tail, o);
      var g := RenameOptional(groups[0], o);
      if HasTitle(g) {
        var all := st + [g];
        assert Surviving(groups, o) == all;
        var d := Put(rest, g.title.value, g);
        assert CollectAdditional(groups, o) == d;
        forall t ensures t in Keys(d) <==> exists h :: h in all && h.title == Some(t) {
          if t == g.title.value {
            assert g in all;
          } else {
            assert t in Keys(d) <==> t in Keys(rest);
            if exists h :: h in all && h.title == Some(t) {
              var h :| h in all && h.title == Some(t);
              assert h in st;
            }
          }
        }
      } else {
        assert Surviving(groups, o) == st;
      }
    }
  }

  /** Every entry of `d` is a group of `gs` filed under its own title. */
  predicate FiledUnderTitles(d: Dict<Group>, gs: seq<Group>) {
    forall i :: 0 <= i < |d| ==> d[i].1.title == Some(d[i].0) && d[i].1 in gs
  }

  lemma PutFiled(d: Dict<Group>, gs: seq<Group>, g: Group)
    requires FiledUnderTitles(d, gs) && HasTitle(g)
    ensures FiledUnderTitles(Put(d, g.title.value, g), gs + [g])
  {
    var r := Put(d, g.title.value, g);
    forall i | 0 <= i < |r| ensures r[i].1.title == Some(r[i].0) && r[i].1 in gs + [g] {
      if r[i] != (g.title.value, g) {
        assert r[i] == d[i];
      }
    }
  }

  lemma {:induction false} CollectAdditionalValues(groups: seq<Group>, optionalArgumentsName: string)
    ensures FiledUnderTitles(CollectAdditional(groups, optionalArgumentsName), Surviving(groups, optionalArgumentsName))
  {
    if groups != [] {
      var o := optionalArgumentsName;
      var tail := groups[1..];
      CollectAdditionalValues(tail, o);
      var g := RenameOptional(groups[0], o);
      if HasTitle(g) {
        PutFiled(CollectAdditional(tail, o), Surviving(tail, o), g);
      }
    }
  }

  /** When no two surviving titles coincide, the groups not asked for follow in reverse order. */
  lemma {:induction false} CollectAdditionalInReverse(groups: seq<Group>, optionalArgumentsName: string)
    requires DistinctTitles(Surviving(groups, optionalArgumentsName))
    ensures Values(CollectAdditional(groups, optionalArgumentsName)) == Surviving(groups, optionalArgumentsName)
  {
    if groups != [] {
      var o := optionalArgumentsName;
      var tail := groups[1..];
      var st := Surviving(tail, o);
      var g := RenameOptional(groups[0], o);
      var all := Surviving(groups, o);
      assert all == st + (if HasTitle(g) then [g] else []);
      assert DistinctTitles(st) by {
        forall i, j | 0 <= i < j < |st| ensures st[i].title != st[j].title {
          assert st[i] == all[i] && st[j] == all[j];
        }
      }
      CollectAdditionalInReverse(tail, o);
      var rest := CollectAdditional(tail, o);
      if HasTitle(g) {
        assert all == st + [g];
        NotYetCollected(tail, o, g);
        assert Values(rest + [(g.title.value, g)]) == Values(rest) + [g];
      }
    }
  }

  lemma NotYetCollected(groups: seq<Group>, optionalArgumentsName: string, g: Group)
    requires HasTitle(g) && DistinctTitles(Surviving(groups, optionalArgumentsName) + [g])
    ensures g.title.value !in Keys(CollectAdditional(groups, optionalArgumentsName))
  {
    var st := Surviving(groups, optionalArgumentsName);
    var all := st + [g];
    CollectAdditionalEntries(groups, optionalArgumentsName);
    forall h | h in st ensures h.title != g.title {
      var m :| 0 <= m < |st| && st[m] == h;
      assert all[m] == h && all[|st|] == g;
    }
  }

  /** Names not requested find in what remains the same group as before the loop. */
  lemma {:induction false} SelectAllRemaining(groups: seq<Group>, nextId: nat, names: seq<string>, t: string)
    requires t !in names
    ensures FindTitled(SelectAll(groups, nextId, names).remaining, t) == FindTitled(groups, t)
  {
    if names != [] {
      var init := names[..|names| - 1];
      var name := names[|names| - 1];
      assert t !in init;
      SelectAllRemaining(groups, nextId, init, t);
      var s0 := SelectAll(groups, nextId, init);
      match FirstTitled(s0.remaining, name)
      case Some(i) => FindTitledAfterRemoval(s0.remaining, i, t);
      case None =>
    }
  }

  /** `g`'s title is one of the requested names. */
  predicate Requested(g: Group, names: seq<string>) {
    g.title.Some? && g.title.value in names
  }

  /** Reference for what the name loop leaves in the list: the groups whose title
      was not asked for, in their original order. */
  function Unrequested(groups: seq<Group>, names: seq<string>): seq<Group> {
    if groups == [] then []
    else (if Requested(groups[0], names) then [] else [groups[0]]) + Unrequested(groups[1..], names)
  }

  /** `gs` with its first group titled `name` taken out. */
  function Without(gs: seq<Group>, name: string): seq<Group> {
    if gs == [] then []
    else if gs[0].title == Some(name) then gs[1..]
    else [gs[0]] + Without(gs[1..], name)
  }

  /** `list.pop(i)` at the first match is `Without`. */
  lemma {:induction false} PopFirstTitled(gs: seq<Group>, name: string)
    ensures match FirstTitled(gs, name)
      case None => Without(gs, name) == gs
      case Some(i) => Without(gs, name) == gs[..i] + gs[i + 1..]
  {
    if gs != [] && gs[0].title != Some(name) {
      PopFirstTitled(gs[1..], name);
      match FirstTitled(gs[1..], name)
      case None =>
      case Some(i) =>
        assert gs[1..][..i] + gs[1..][i + 1..] == gs[1..i + 1] + gs[i + 2..];
        assert [gs[0]] + gs[1..i + 1] == gs[..i + 1];
    }
  }

  /** Asking for a title no group has filters out nothing more. */
  lemma {:induction false} UnrequestedOfAbsentTitle(gs: seq<Group>, init: seq<string>, name: string)
    requires forall g :: g in gs ==> g.title != Some(name)
    ensures Unrequested(gs, init + [name]) == Unrequested(gs, init)
  {
    if gs != [] {
      UnrequestedOfAbsentTitle(gs[1..], init, name);
    }
  }

  /** With distinct titles, asking for one more name takes out exactly the first
      remaining group with that title. */
  lemma {:induction false} UnrequestedStep(gs: seq<Group>, init: seq<string>, name: string)
    requires DistinctTitles(gs)
    ensures Unrequested(gs, init + [name]) == Without(Unrequested(gs, init), name)
  {
    if gs != [] {
      var rest := gs[1..];
      assert DistinctTitles(rest) by {
        forall i, j | 0 <= i < j < |rest| ensures rest[i].title != rest[j].title {
          assert rest[i] == gs[i + 1] && rest[j] == gs[j + 1];
        }
      }
      UnrequestedStep(rest, init, name);
      var g := gs[0];
      var u := Unrequested(rest, init);
      if Requested(g, init) {
        assert Requested(g, init + [name]);
        assert Unrequested(gs, init) == u;
        assert Unrequested(gs, init + [name]) == Unrequested(rest, init + [name]);
      } else if g.title == Some(name) {
        forall h | h in rest ensures h.title != Some(name) {
          var k :| 0 <= k < |rest| && rest[k] == h;
          assert gs[k + 1] == h;
        }
        UnrequestedOfAbsentTitle(rest, init, name);
        assert Requested(g, init + [name]);
        assert Unrequested(gs, init) == [g] + u;
        assert ([g] + u)[1..] == u;
      } else {
        assert !Requested(g, init + [name]);
        assert Unrequested(gs, init) == [g] + u;
        assert ([g] + u)[1..] == u;
      }
    }
  }

  /** When the parser's titles are distinct, the name loop leaves exactly the
      unrequested groups, in their original order. */
  lemma {:induction false} SelectAllKeepsOrder(groups: seq<Group>, nextId: nat, names: seq<string>)
    requires DistinctTitles(groups)
    ensures SelectAll(groups, nextId, names).remaining == Unrequested(groups, names)
  {
    if names == [] {
      UnrequestedOfNothing(groups);
    } else {
      var init := names[..|names| - 1];
      var name := names[|names| - 1];
      SelectAllKeepsOrder(groups, nextId, init);
      SelectAllLastStep(groups, nextId, names);
      UnrequestedLastStep(groups, names);
    }
  }

  /** `UnrequestedStep` for the last of the names. */
  lemma UnrequestedLastStep(groups: seq<Group>, names: seq<string>)
    requires DistinctTitles(groups) && names != []
    ensures Unrequested(groups, names)
         == Without(Unrequested(groups, names[..|names| - 1]), names[|names| - 1])
  {
    UnrequestedStep(groups, names[..|names| - 1], names[|names| - 1]);
    assert names[..|names| - 1] + [names[|names| - 1]] == names;
  }

  /** The last pass of the name loop pops the first group with the last name, if any. */
  lemma SelectAllLastStep(groups: seq<Group>, nextId: nat, names: seq<string>)
    requires names != []
    ensures SelectAll(groups, nextId, names).remaining
         == Without(SelectAll(groups, nextId, names[..|names| - 1]).remaining, names[|names| - 1])
  {
    var s0 := SelectAll(groups, nextId, names[..|names| - 1]);
    PopFirstTitled(s0.remaining, names[|names| - 1]);
  }

  lemma {:induction false} UnrequestedOfNothing(groups: seq<Group>)
    ensures Unrequested(groups, []) == groups
  {
    if groups != [] {
      UnrequestedOfNothing(groups[1..]);
    }
  }

  /** `get_arg_groups_by_name` end to end: the groups not asked for come back after
      the requested ones in reverse of their order in the parser, renamed and with
      the untitled ones dropped, when the titles involved are distinct. */
  lemma AdditionalInReverseOfParser(groups: seq<Group>, nextId: nat, names: seq<string>,
                                    optionalArgumentsName: string)
    requires DistinctTitles(groups)
    requires DistinctTitles(Surviving(Unrequested(groups, names), optionalArgumentsName))
    ensures Values(CollectAdditional(SelectAll(groups, nextId, names).remaining, optionalArgumentsName))
         == Surviving(Unrequested(groups, names), optionalArgumentsName)
  {
    SelectAllKeepsOrder(groups, nextId, names);
    CollectAdditionalInReverse(Unrequested(groups, names), optionalArgumentsName);
  }

  /** The group a requested name ends up with: the first pre-existing group with that
      title, or else a group created by the call, whose identity is at least `firstNewId`. */
  ghost predicate ChosenFor(groups: seq<Group>, name: string, g: Group, firstNewId: nat) {
    match FindTitled(groups, name)
    case Some(h) => g == h
    case None => g.title == Some(name) && g.id >= firstNewId
  }

  /** The `for name in names` loop, for distinct names: `specified_groups` has the names
      as keys, in order, and each name holds its pre-existing group or a new one. */
  lemma {:induction false} SelectAllSpecified(groups: seq<Group>, nextId: nat, names: seq<string>)
    requires DistinctNames(names)
    ensures var s := SelectAll(groups, nextId, names);
      && Keys(s.specified) == names
      && nextId <= s.nextId
      && forall i :: 0 <= i < |names| ==> ChosenFor(groups, names[i], s.specified[i].1, nextId)
  {
    if names != [] {
      var n := |names| - 1;
      var init := names[..n];
      var name := names[n];
      assert DistinctNames(init);
      assert name !in init;
      SelectAllSpecified(groups, nextId, init);
      SelectAllRemaining(groups, nextId, init, name);
      SelectStepSpecified(groups, nextId, SelectAll(groups, nextId, init), init, name);
      assert init + [name] == names;
    }
  }

  lemma SelectStepSpecified(groups: seq<Group>, nextId: nat, s0: Selection, init: seq<string>, name: string)
    requires Keys(s0.specified) == init && name !in init && nextId <= s0.nextId
    requires forall i :: 0 <= i < |init| ==> ChosenFor(groups, init[i], s0.specified[i].1, nextId)
    requires FindTitled(s0.remaining, name) == FindTitled(groups, name)
    ensures var s := SelectStep(s0, name);
      && Keys(s.specified) == init + [name]
      && nextId <= s.nextId
      && forall i :: 0 <= i <= |init| ==> ChosenFor(groups, (init + [name])[i], s.specified[i].1, nextId)
  {
    var s := SelectStep(s0, name);
    assert s.specified == s0.specified + [(name, s.specified[|init|].1)];
  }

  // ----- the parser -----

  /** Every group was handed out before identity `n`. */
  ghost predicate GroupsBelow(gs: seq<Group>, n: nat) {
    forall i :: 0 <= i < |gs| ==> gs[i].id < n
  }

  ghost predicate EntriesBelow(d: Dict<Group>, n: nat) {
    forall i :: 0 <= i < |d| ==> d[i].1.id < n
  }

  lemma PutBelow(d: Dict<Group>, k: string, g: Group, n: nat)
    requires EntriesBelow(d, n) && g.id < n
    ensures EntriesBelow(Put(d, k, g), n)
  {
  }

  lemma RemoveBelow(gs: seq<Group>, i: nat, n: nat)
    requires GroupsBelow(gs, n) && i < |gs|
    ensures GroupsBelow(gs[..i] + gs[i + 1..], n)
  {
    var rest := gs[..i] + gs[i + 1..];
    assert forall j :: 0 <= j < |rest| ==> rest[j] == if j < i then gs[j] else gs[j + 1];
  }

  /** The part of an argparse `ArgumentParser` that the helpers touch. */
  class ArgumentParser {
    var actionGroups: seq<Group>
    var nextId: nat

    /** Every group in the list was handed out before `nextId`. */
    ghost predicate Valid()
      reads this
    {
      GroupsBelow(actionGroups, nextId)
    }

    constructor (groups: seq<Group>, nextId: nat)
      requires forall i :: 0 <= i < |groups| ==> groups[i].id < nextId
      ensures Valid() && actionGroups == groups && this.nextId == nextId
    {
      actionGroups := groups;
      this.nextId := nextId;
    }

    /** `parser.add_argument_group(title)`: a new group is appended to the list. */
    method AddArgumentGroup(title: Option<string>) returns (g: Group)
      requires Valid()
      modifies this
      ensures Valid()
      ensures g == Group(old(nextId), title) && nextId == old(nextId) + 1
      ensures actionGroups == old(actionGroups) + [g]
    {
      g := Group(nextId, title);
      nextId := nextId + 1;
      actionGroups := actionGroups + [g];
    }

    /** `get_optional_arguments_group(parser)` */
    function GetOptionalArgumentsGroup(): (r: Result<Group, ErrorKind>)
      reads this
      ensures r == Failure(StopIteration) <==>
        forall i :: 0 <= i < |actionGroups| ==> actionGroups[i].title != Some("optional arguments")
      ensures r.Success? ==>
        exists i ::
          && 0 <= i < |actionGroups| && actionGroups[i] == r.value
          && r.value.title == Some("optional arguments")
          && forall j :: 0 <= j < i ==> actionGroups[j].title != Some("optional arguments")
    {
      match FirstTitled(actionGroups, "optional arguments")
      case None => Failure(StopIteration)
      case Some(i) => Success(actionGroups[i])
    }

    /** `get_required_arguments_group(parser)`: find the group, or insert a new one just
        before the last group. */
    method GetRequiredArgumentsGroup() returns (r: Result<Group, ErrorKind>)
      requires Valid()
      modifies this
      ensures Valid()
      ensures FindTitled(old(actionGroups), "required arguments").Some? ==>
        r == Success(FindTitled(old(actionGroups), "required arguments").value)
        && actionGroups == old(actionGroups) && nextId == old(nextId)
      ensures FindTitled(old(actionGroups), "required arguments").None? && old(actionGroups) == [] ==>
        r == Failure(IndexError) && actionGroups == old(actionGroups) && nextId == old(nextId)
      ensures FindTitled(old(actionGroups), "required arguments").None? && old(actionGroups) != [] ==>
        var n := |old(actionGroups)| - 1;
        && r == Success(Group(old(nextId), Some("required arguments")))
        && actionGroups == old(actionGroups)[..n] + [r.value] + [old(actionGroups)[n]]
        && nextId == old(nextId) + 1
      // a second call finds the group this one returned
      ensures r.Success? ==> FindTitled(actionGroups, "required arguments") == Some(r.value)
    {
      var found := FirstTitled(actionGroups, "required arguments");
      if found.Some? {
        return Success(actionGroups[found.value]);
      }
      if actionGroups == [] {
        return Failure(IndexError);
      }
      ghost var before := actionGroups;
      var optional := actionGroups[|actionGroups| - 1];
      actionGroups := actionGroups[..|actionGroups| - 1];
      var required := AddArgumentGroup(Some("required arguments"));
      actionGroups := actionGroups + [optional];
      r := Success(required);
      assert actionGroups[|actionGroups| - 2] == required;
      assert FirstTitled(actionGroups, "required arguments") == Some(|actionGroups| - 2) by {
        forall j | 0 <= j < |actionGroups| - 2
          ensures actionGroups[j].title != Some("required arguments")
        {
          assert actionGroups[j] == before[j];
        }
      }
    }

    /** One pass of the `for name in names` loop of `get_arg_groups_by_name`. */
    method SelectGroup(specified: Dict<Group>, name: string) returns (specified': Dict<Group>)
      requires Valid()
      requires EntriesBelow(specified, nextId)
      modifies this
      ensures Valid()
      ensures EntriesBelow(specified', nextId)
      ensures Selection(actionGroups, specified', nextId)
           == SelectStep(Selection(old(actionGroups), specified, old(nextId)), name)
    {
      var i := 0;
      while i < |actionGroups| && actionGroups[i].title != Some(name)
        invariant 0 <= i <= |actionGroups|
        invariant forall j :: 0 <= j < i ==> actionGroups[j].title != Some(name)
      {
        i := i + 1;
      }
      if i < |actionGroups| {
        FirstTitledAt(actionGroups, name, i);
        RemoveBelow(actionGroups, i, nextId);
        var g := actionGroups[i];
        actionGroups := actionGroups[..i] + actionGroups[i + 1..];
        PutBelow(specified, name, g, nextId);
        specified' := Put(specified, name, g);
      } else {
        ghost var before := actionGroups;
        assert FirstTitled(before, name).None?;
        var g := AddArgumentGroup(Some(name));
        actionGroups := actionGroups[..|actionGroups| - 1];
        assert actionGroups == before;
        PutBelow(specified, name, g, nextId);
        specified' := Put(specified, name, g);
      }
    }

    /** The `while` loop of `get_arg_groups_by_name`: pop every group, rename the
        default optional group, and file each titled group under its title. */
    method PopAdditional(optionalArgumentsName: string) returns (additional: Dict<Group>)
      requires Valid()
      modifies this
      ensures Valid() && actionGroups == [] && nextId == old(nextId)
      ensures additional == CollectAdditional(old(actionGroups), optionalArgumentsName)
      ensures EntriesBelow(additional, nextId)
    {
      ghost var remaining := actionGroups;
      additional := [];
      while |actionGroups| > 0
        invariant actionGroups == remaining[..|actionGroups|]
        invariant additional == CollectAdditional(remaining[|actionGroups|..], optionalArgumentsName)
        invariant EntriesBelow(additional, nextId)
        invariant Valid() && nextId == old(nextId)
      {
        var m := |actionGroups| - 1;
        var ag := actionGroups[m];
        CollectAdditionalAt(remaining, m, optionalArgumentsName);
        ghost var renamed := RenameOptional(ag, optionalArgumentsName);
        actionGroups := actionGroups[..m];
        if ag.title == Some("options") || ag.title == Some("optional arguments") {
          ag := ag.(title := Some(optionalArgumentsName));
        }
        assert ag == renamed;
        if ag.title.Some? && ag.title.value != "" {
          PutBelow(additional, ag.title.value, ag, nextId);
          additional := Put(additional, ag.title.value, ag);
        }
      }
      assert remaining[0..] == remaining;
    }

    /** The `for name in names` loop of `get_arg_groups_by_name`. */
    method SelectGroups(names: seq<string>) returns (specified: Dict<Group>)
      requires Valid()
      modifies this
      ensures Valid()
      ensures Selection(actionGroups, specified, nextId) == SelectAll(old(actionGroups), old(nextId), names)
      ensures EntriesBelow(specified, nextId)
    {
      specified := [];
      var n := 0;
      while n < |names|
        invariant 0 <= n <= |names|
        invariant Selection(actionGroups, specified, nextId) == SelectAll(old(actionGroups), old(nextId), names[..n])
        invariant EntriesBelow(specified, nextId)
        invariant Valid()
      {
        SelectAllPrefixStep(old(actionGroups), old(nextId), names, n);
        specified := SelectGroup(specified, names[n]);
        n := n + 1;
      }
      assert names[..n] == names;
    }

    /** `get_arg_groups_by_name(parser, *names, optional_arguments_name=...)`: the list
        ends up holding the requested groups followed by the others, and the result is
        `{**specified_groups, **additional_groups}`. */
    method GetArgGroupsByName(names: seq<string>, optionalArgumentsName: string)
      returns (groups: Dict<Group>)
      requires Valid()
      modifies this
      ensures Valid()
      ensures var s := SelectAll(old(actionGroups), old(nextId), names);
        var additional := CollectAdditional(s.remaining, optionalArgumentsName);
        && actionGroups == Values(s.specified) + Values(additional)
        && nextId == s.nextId
        && groups == Merge(s.specified, additional)
    {
      var specified := SelectGroups(names);
      var additional := PopAdditional(optionalArgumentsName);
      actionGroups := Values(specified) + Values(additional);
      groups := Merge(specified, additional);
    }
  }

  // ----- get_validator -----

  /** `except TypeError: raise ArgumentTypeError`: what a wrapped validator raises instead. */
  function TranslateError(e: ErrorKind): (t: ErrorKind)
    ensures IsSubclass(e, TypeError) ==> t == ArgumentTypeError
    ensures !IsSubclass(e, TypeError) ==> t == e
    ensures !IsSubclass(t, TypeError)
  {
    if IsSubclass(e, TypeError) then ArgumentTypeError else e
  }

  /** `get_validator(function, **kwargs)`; the keyword arguments are bound inside `f`. */
  function GetValidator<A(!new), R>(f: A -> Result<R, ErrorKind>): (w: A -> Result<R, ErrorKind>)
    ensures forall v :: f(v).Success? ==> w(v) == f(v)
    ensures forall v :: f(v).Failure? && IsSubclass(f(v).error, TypeError) ==> w(v) == Failure(ArgumentTypeError)
    ensures forall v :: f(v).Failure? && !IsSubclass(f(v).error, TypeError) ==> w(v) == f(v)
    ensures forall v :: w(v).Failure? ==> !IsSubclass(w(v).error, TypeError)
  {
    v => match f(v)
         case Success(x) => Success(x)
         case Failure(e) => Failure(TranslateError(e))
  }
}
