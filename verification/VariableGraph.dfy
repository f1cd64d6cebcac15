/**
 * resolveConfigVariables: a copy of an object graph, which may share objects and contain cycles,
 * with the placeholders of every string resolved in one pass.
 */
module VariableGraph {
  import opened Wrappers
  import opened Placeholders
  import opened Pointers

  /** A value: a string, a reference to an object or array, or anything else (copied as it is). */
  datatype Item = Text(s: string) | Ref(id: nat) | Other(v: int)

  /** An object or array with its entries in the order of Object.entries. */
  datatype Node = Node(isArray: bool, entries: seq<(string, Item)>)

  type Graph = map<nat, Node>

  type Env = map<string, string>

  datatype Issue = Issue(path: string, variable: string)

  // ---- One string -----------------------------------------------------------------------

  predicate HasValue(env: Env, variable: string) {
    variable in env && env[variable] != ""
  }

  function Lookup(env: Env): Replacer {
    (text: string, variable: string, fallback: Option<string>) =>
      if HasValue(env, variable) then env[variable]
      else if fallback.Some? then fallback.value
      else text
  }

  /** The string with its placeholders resolved. */
  ghost function Resolved(env: Env, s: string): string {
    Substitute(s, 0, Matches(s, 0), Lookup(env))
  }

  /** The variables of the placeholders that stay as they are, in order. */
  function Unresolved(env: Env, ms: seq<Match>): seq<string> {
    if ms == [] then []
    else
      (if HasValue(env, ms[0].variable) || ms[0].fallback.Some? then [] else [ms[0].variable])
      + Unresolved(env, ms[1..])
  }

  lemma {:induction false} UnresolvedMoved(env: Env, ms: seq<Match>, k: nat)
    ensures Unresolved(env, AllMoved(ms, k)) == Unresolved(env, ms)
  {
    if ms != [] {
      UnresolvedMoved(env, ms[1..], k);
      assert AllMoved(ms, k)[1..] == AllMoved(ms[1..], k);
    }
  }

  /** The report of one match, and then of the others. */
  lemma ReportedCons(env: Env, m: Match, ms: seq<Match>, path: string)
    ensures Reported(env, [m] + ms, path)
         == (if HasValue(env, m.variable) || m.fallback.Some? then []
             else [Issue(if path == "" then "/" else path, m.variable)])
            + Reported(env, ms, path)
  {
    assert ([m] + ms)[1..] == ms;
  }

  lemma ReportedMoved(env: Env, ms: seq<Match>, k: nat, path: string)
    ensures Reported(env, AllMoved(ms, k), path) == Reported(env, ms, path)
  {
    UnresolvedMoved(env, ms, k);
  }

  /**
   * The first placeholder of a string, from `i` to `j`, becomes the value of its variable if there is one that
   * is not empty, or else its fallback, or else it stays and is reported; the rest is resolved by itself.
   */
  lemma PlaceholderResolved(env: Env, s: string, i: nat, j: nat, variable: string, fallback: Option<string>,
                            path: string)
    requires FirstPlaceholder(s, i, j, variable, fallback)
    ensures i <= j <= |s|
    ensures variable in env && env[variable] != "" ==>
      Resolved(env, s) == s[0..i] + env[variable] + Resolved(env, s[j..])
    ensures !(variable in env && env[variable] != "") && fallback.Some? ==>
      Resolved(env, s) == s[0..i] + fallback.value + Resolved(env, s[j..])
    ensures !(variable in env && env[variable] != "") && fallback.None? ==>
      Resolved(env, s) == s[0..i] + s[i..j] + Resolved(env, s[j..])
    ensures Reported(env, Matches(s, 0), path)
         == (if !(variable in env && env[variable] != "") && fallback.None? then
               [Issue(if path == "" then "/" else path, variable)]
             else [])
            + Reported(env, Matches(s[j..], 0), path)
  {
    TakePlaceholder(s, i, j, variable, fallback, Lookup(env));
    FirstBounds(s, i, j, variable, fallback);
    hide FirstPlaceholder, PlaceholderText, Matches, Substitute, Reported;
    ReportedMoved(env, Matches(s[j..], 0), j, path);
    ReportedCons(env, Match(i, j, variable, fallback), AllMoved(Matches(s[j..], 0), j), path);
  }

  /** A string without placeholders stays as it is, and nothing is reported of it. */
  lemma NothingResolved(env: Env, s: string, path: string)
    requires forall m: Match :: !RegexMatch(s, m)
    ensures Resolved(env, s) == s && Reported(env, Matches(s, 0), path) == []
  {
    NoneLeft(s, 0);
  }

  // ---- Reachability ---------------------------------------------------------------------

  predicate WellFormed(g: Graph, root: Item) {
    && (root.Ref? ==> root.id in g)
    && forall id :: id in g ==> RefsIn(g[id], g.Keys)
  }

  predicate RefsIn(n: Node, ids: set<nat>) {
    forall i :: 0 <= i < |n.entries| ==> ItemIn(n.entries[i].1, ids)
  }

  predicate ItemIn(v: Item, ids: set<nat>) {
    v.Ref? ==> v.id in ids
  }

  /** `ids` is closed under following references. */
  predicate Closed(g: Graph, ids: set<nat>) {
    ids <= g.Keys && forall id :: id in ids ==> RefsIn(g[id], ids)
  }

  /** The objects reachable from `root`: those in every closed set that contains it. */
  ghost function Reachable(g: Graph, root: Item): set<nat> {
    set id | id in g && forall ids :: Closed(g, ids) && ItemIn(root, ids) ==> id in ids
  }

  lemma ReachableIsClosed(g: Graph, root: Item)
    requires WellFormed(g, root)
    ensures Closed(g, Reachable(g, root)) && ItemIn(root, Reachable(g, root))
  {
    var r := Reachable(g, root);
    forall id | id in r
      ensures RefsIn(g[id], r)
    {
      forall i | 0 <= i < |g[id].entries|
        ensures ItemIn(g[id].entries[i].1, r)
      {
        forall ids | Closed(g, ids) && ItemIn(root, ids)
          ensures ItemIn(g[id].entries[i].1, ids)
        {
          assert id in ids && RefsIn(g[id], ids);
        }
        assert RefsIn(g[id], g.Keys) && ItemIn(g[id].entries[i].1, g.Keys);
      }
    }
  }

  // ---- Paths in the graph ---------------------------------------------------------------

  /** Following the keys `p` from `a` can lead to `b`. */
  ghost predicate Leads(g: Graph, a: Item, p: Path, b: Item)
    decreases |p|
  {
    if p == [] then a == b
    else
      && a.Ref? && a.id in g
      && var es := g[a.id].entries;
         exists i :: 0 <= i < |es| && es[i].0 == p[0] && Leads(g, es[i].1, p[1..], b)
  }

  lemma {:induction false} LeadsOn(g: Graph, a: Item, p: Path, id: nat, i: nat)
    requires Leads(g, a, p, Ref(id)) && id in g && i < |g[id].entries|
    ensures Leads(g, a, p + [g[id].entries[i].0], g[id].entries[i].1)
    decreases |p|
  {
    var k, b := g[id].entries[i].0, g[id].entries[i].1;
    if p == [] {
      assert [] + [k] == [k] && [k][1..] == [];
      assert Leads(g, b, [k][1..], b);
    } else {
      var es := g[a.id].entries;
      var j :| 0 <= j < |es| && es[j].0 == p[0] && Leads(g, es[j].1, p[1..], Ref(id));
      LeadsOn(g, g[a.id].entries[j].1, p[1..], id, i);
      assert (p + [k])[0] == p[0] && (p + [k])[1..] == p[1..] + [k];
    }
  }

  // ---- Where strings are, and what is reported of them ----------------------------------

  /** The whole input, or one entry of an object or array. */
  datatype Place = Whole | Entry(id: nat, index: nat)

  predicate Exists(g: Graph, place: Place) {
    place.Entry? ==> place.id in g && place.index < |g[place.id].entries|
  }

  function ItemAt(g: Graph, root: Item, place: Place): Item
    requires Exists(g, place)
  {
    match place
    case Whole => root
    case Entry(id, i) => g[id].entries[i].1
  }

  /** One string that was resolved: where it is, and the path by which the traversal came to it. */
  datatype Block = Block(place: Place, path: Path)

  /** The path leads to the place: to the object, and then by the key of the entry. */
  ghost predicate LeadsTo(g: Graph, root: Item, place: Place, path: Path) {
    && Exists(g, place)
    && match place
       case Whole => path == []
       case Entry(id, i) =>
         path != [] && Leads(g, root, path[..|path| - 1], Ref(id)) && path[|path| - 1] == g[id].entries[i].0
  }

  lemma LeadsToItem(g: Graph, root: Item, place: Place, path: Path)
    requires LeadsTo(g, root, place, path)
    ensures Leads(g, root, path, ItemAt(g, root, place))
  {
    if place.Entry? {
      var n := |path| - 1;
      LeadsOn(g, root, path[..n], place.id, place.index);
      assert path == path[..n] + [g[place.id].entries[place.index].0];
    }
  }

  /** The unresolved placeholders of the string, in order, each under the pointer of its place. */
  ghost function BlockIssues(g: Graph, env: Env, root: Item, b: Block): seq<Issue>
    requires Exists(g, b.place)
  {
    match ItemAt(g, root, b.place)
    case Text(s) => Reported(env, Matches(s, 0), Pointer(b.path))
    case _ => []
  }

  /** The issues of all strings, one string after the other. */
  ghost function AllIssues(g: Graph, env: Env, root: Item, bs: seq<Block>): seq<Issue>
    requires forall k :: 0 <= k < |bs| ==> Exists(g, bs[k].place)
  {
    if bs == [] then []
    else AllIssues(g, env, root, bs[..|bs| - 1]) + BlockIssues(g, env, root, bs[|bs| - 1])
  }

  ghost predicate IsBlock(g: Graph, root: Item, b: Block) {
    LeadsTo(g, root, b.place, b.path) && ItemAt(g, root, b.place).Text?
  }

  ghost predicate DistinctPlaces(bs: seq<Block>) {
    forall i, j :: 0 <= i < j < |bs| ==> bs[i].place != bs[j].place
  }

  function Places(bs: seq<Block>): set<Place> {
    set k | 0 <= k < |bs| :: bs[k].place
  }

  /** Every string is reported once, at its own place, and `issues` is nothing but those reports. */
  ghost predicate Logged(g: Graph, env: Env, root: Item, bs: seq<Block>, issues: seq<Issue>) {
    && (forall k :: 0 <= k < |bs| ==> IsBlock(g, root, bs[k]))
    && DistinctPlaces(bs)
    && issues == AllIssues(g, env, root, bs)
  }

  lemma LogOne(g: Graph, env: Env, root: Item, bs: seq<Block>, issues: seq<Issue>, b: Block)
    requires Logged(g, env, root, bs, issues) && IsBlock(g, root, b) && b.place !in Places(bs)
    ensures Logged(g, env, root, bs + [b], issues + BlockIssues(g, env, root, b))
    ensures Places(bs + [b]) == Places(bs) + {b.place}
  {
    hide IsBlock, BlockIssues;
    var more := bs + [b];
    assert more[..|bs|] == bs;
    assert forall k :: 0 <= k < |more| ==> more[k] == if k < |bs| then bs[k] else b;
    forall k | 0 <= k < |bs|
      ensures bs[k].place != b.place
    {
      assert bs[k].place in Places(bs);
    }
    forall x | x in Places(bs) + {b.place}
      ensures x in Places(more)
    {
      if x in Places(bs) {
        var k :| 0 <= k < |bs| && bs[k].place == x;
        assert more[k].place == x;
      } else {
        assert more[|bs|].place == x;
      }
    }
  }

  lemma LogNothing(g: Graph, env: Env, root: Item)
    ensures Logged(g, env, root, [], []) && Places([]) == {}
  {
  }

  /** The strings among the first `n` entries of an object. */
  function EntryPlaces(g: Graph, id: nat, n: nat): set<Place>
    requires id in g && n <= |g[id].entries|
  {
    set i | 0 <= i < n && g[id].entries[i].1.Text? :: Entry(id, i)
  }

  /** The strings of the objects `ids`. */
  function NodePlaces(g: Graph, ids: set<nat>): set<Place>
    requires ids <= g.Keys
  {
    set id, i | id in ids && 0 <= i < |g[id].entries| && g[id].entries[i].1.Text? :: Entry(id, i)
  }

  function ItemPlaces(place: Place, v: Item): set<Place> {
    if v.Text? then {place} else {}
  }

  lemma NodePlacesSplit(g: Graph, ids: set<nat>, id: nat)
    requires ids <= g.Keys && id in g
    ensures NodePlaces(g, ids + {id}) == NodePlaces(g, ids) + EntryPlaces(g, id, |g[id].entries|)
  {
  }

  lemma NodePlacesUnion(g: Graph, a: set<nat>, b: set<nat>)
    requires a <= g.Keys && b <= g.Keys
    ensures NodePlaces(g, a + b) == NodePlaces(g, a) + NodePlaces(g, b)
  {
  }

  lemma EntryPlacesStep(g: Graph, id: nat, i: nat)
    requires id in g && i < |g[id].entries|
    ensures EntryPlaces(g, id, i + 1) == EntryPlaces(g, id, i) + ItemPlaces(Entry(id, i), g[id].entries[i].1)
  {
  }

  // ---- The copy -------------------------------------------------------------------------

  /** `w` is the copy of `v` when objects are copied as `seen` says. */
  ghost predicate ItemCopied(env: Env, seen: map<nat, nat>, v: Item, w: Item) {
    match v
    case Text(s) => w == Text(Resolved(env, s))
    case Ref(id) => id in seen && w == Ref(seen[id])
    case Other(_) => w == v
  }

  ghost predicate EntriesCopied(env: Env, seen: map<nat, nat>, es: seq<(string, Item)>, fs: seq<(string, Item)>) {
    |es| == |fs| && forall i :: 0 <= i < |es| ==> es[i].0 == fs[i].0 && ItemCopied(env, seen, es[i].1, fs[i].1)
  }

  /** The finished copy of the object `id`. */
  ghost predicate Copied(g: Graph, env: Env, seen: map<nat, nat>, output: Graph, id: nat) {
    && id in g && id in seen && seen[id] in output
    && output[seen[id]].isArray == g[id].isArray
    && EntriesCopied(env, seen, g[id].entries, output[seen[id]].entries)
  }

  ghost predicate Injective(m: map<nat, nat>) {
    forall a, b :: a in m && b in m && m[a] == m[b] ==> a == b
  }

  // ---- The traversal --------------------------------------------------------------------

  /** The call of `replace` on each match: unresolved placeholders are reported. */
  function Reported(env: Env, ms: seq<Match>, path: string): seq<Issue> {
    var names := Unresolved(env, ms);
    seq(|names|, i requires 0 <= i < |names| => Issue(if path == "" then "/" else path, names[i]))
  }

  /** Everything seen is copied, except the objects in `pending`, whose copies are being filled. */
  ghost predicate Good(g: Graph, env: Env, seen: map<nat, nat>, output: Graph, next: nat, pending: set<nat>) {
    && pending <= seen.Keys <= g.Keys
    && Injective(seen)
    && output.Keys == seen.Values && (forall t :: t in output ==> t < next)
    && forall id :: id in seen && id !in pending ==> Copied(g, env, seen, output, id)
  }

  /** The copies made before are still the same. */
  ghost predicate Kept(seen: map<nat, nat>, output: Graph, seen': map<nat, nat>, output': Graph) {
    && seen.Keys <= seen'.Keys
    && forall id :: id in seen ==> seen'[id] == seen[id] && SameAt(seen[id], output, output')
  }

  ghost predicate SameAt(t: nat, output: Graph, output': Graph) {
    t in output && t in output' && output[t] == output'[t]
  }

  lemma KeptSame(g: Graph, env: Env, seen: map<nat, nat>, output: Graph, next: nat, pending: set<nat>)
    requires Good(g, env, seen, output, next, pending)
    ensures Kept(seen, output, seen, output)
  {
  }

  lemma KeptTransitive(s0: map<nat, nat>, o0: Graph, s1: map<nat, nat>, o1: Graph, s2: map<nat, nat>, o2: Graph)
    requires Kept(s0, o0, s1, o1) && Kept(s1, o1, s2, o2)
    ensures Kept(s0, o0, s2, o2)
  {
    forall id | id in s0
      ensures s2[id] == s0[id] && SameAt(s0[id], o0, o2)
    {
      assert s1[id] == s0[id] && SameAt(s0[id], o0, o1) && SameAt(s1[id], o1, o2);
    }
  }

  /** An object is registered before its entries are visited. */
  lemma StartCopy(g: Graph, env: Env, seen: map<nat, nat>, output: Graph, next: nat, pending: set<nat>, id: nat,
                  n: Node)
    requires Good(g, env, seen, output, next, pending) && id in g && id !in seen
    ensures Good(g, env, seen[id := next], output[next := n], next + 1, pending + {id})
    ensures Kept(seen, output, seen[id := next], output[next := n])
  {
    ValuesAdd(seen, id, next);
    forall k | k in seen && k !in pending
      ensures Copied(g, env, seen[id := next], output[next := n], k)
    {
      StillCopied(g, env, seen, seen[id := next], output, output[next := n], k);
    }
  }

  /** A pending copy receives its next entry. */
  lemma FillCopy(g: Graph, env: Env, seen: map<nat, nat>, output: Graph, next: nat, pending: set<nat>, id: nat, n: Node)
    requires Good(g, env, seen, output, next, pending) && id in pending
    ensures seen[id] in output && Good(g, env, seen, output[seen[id] := n], next, pending)
  {
    assert seen[id] in seen.Values;
    forall k | k in seen && k !in pending
      ensures Copied(g, env, seen, output[seen[id] := n], k)
    {
      StillCopied(g, env, seen, seen, output, output[seen[id] := n], k);
    }
  }

  lemma FillKeeps(s0: map<nat, nat>, o0: Graph, seen: map<nat, nat>, output: Graph, id: nat, n: Node)
    requires Kept(s0, o0, seen, output) && id in seen && id !in s0 && Injective(seen)
    ensures Kept(s0, o0, seen, output[seen[id] := n])
  {
  }

  /** A filled copy is finished. */
  lemma FinishCopy(g: Graph, env: Env, seen: map<nat, nat>, output: Graph, next: nat, pending: set<nat>, id: nat)
    requires Good(g, env, seen, output, next, pending + {id}) && id !in pending
    requires Copied(g, env, seen, output, id)
    ensures Good(g, env, seen, output, next, pending)
  {
  }

  /** Where the traversal stands: the copies made, the next free identity, and the log. */
  datatype State = State(seen: map<nat, nat>, output: Graph, next: nat, blocks: seq<Block>, issues: seq<Issue>)

  /** Everything seen is copied but for `pending`, and everything met is logged. */
  ghost predicate Sound(g: Graph, env: Env, root: Item, t: State, pending: set<nat>) {
    Good(g, env, t.seen, t.output, t.next, pending) && Logged(g, env, root, t.blocks, t.issues)
  }

  /**
   * The copy of `id`, begun in the state `from`, is being filled: its first `i` entries are copied and the
   * strings met are logged.
   */
  ghost predicate Filling(g: Graph, env: Env, root: Item, from: State, id: nat, i: nat, entries: seq<(string, Item)>,
                          t: State, pending: set<nat>)
  {
    && id in g && i <= |g[id].entries| && id !in from.seen && from.seen.Keys + {id} <= t.seen.Keys <= g.Keys
    && pending <= from.seen.Keys && Sound(g, env, root, t, pending + {id})
    && Kept(from.seen, from.output, t.seen, t.output)
    && t.seen[id] in t.output && t.output[t.seen[id]] == Node(g[id].isArray, entries)
    && EntriesCopied(env, t.seen, g[id].entries[..i], entries)
    && PlacesIn(Places(from.blocks), from.seen.Keys)
    && Places(t.blocks)
       == Places(from.blocks) + EntryPlaces(g, id, i) + NodePlaces(g, t.seen.Keys - from.seen.Keys - {id})
  }

  /** Only strings of the objects `ids`, or the whole input, are among the places. */
  ghost predicate PlacesIn(places: set<Place>, ids: set<nat>) {
    forall place :: place in places && place.Entry? ==> place.id in ids
  }

  lemma NoEntries(g: Graph, env: Env, root: Item, from: State, id: nat, t: State, pending: set<nat>)
    requires id in g && id !in from.seen && id in t.seen && t.seen.Keys == from.seen.Keys + {id} <= g.Keys
    requires pending <= from.seen.Keys && Sound(g, env, root, t, pending + {id})
    requires Kept(from.seen, from.output, t.seen, t.output)
    requires t.seen[id] in t.output && t.output[t.seen[id]] == Node(g[id].isArray, [])
    requires PlacesIn(Places(from.blocks), from.seen.Keys) && t.blocks == from.blocks
    ensures Filling(g, env, root, from, id, 0, [], t, pending)
  {
    hide Sound, Kept, PlacesIn, Places;
    assert t.seen.Keys - from.seen.Keys - {id} == {};
    assert g[id].entries[..0] == [];
    assert EntryPlaces(g, id, 0) == {} && NodePlaces(g, {}) == {};
    NothingCopied(env, t.seen);
  }

  lemma FillingIsGood(g: Graph, env: Env, root: Item, from: State, id: nat, i: nat, entries: seq<(string, Item)>,
                      t: State, pending: set<nat>)
    requires Filling(g, env, root, from, id, i, entries, t, pending)
    ensures Sound(g, env, root, t, pending + {id})
    ensures PlacesIn(Places(t.blocks), t.seen.Keys) && (i < |g[id].entries| ==> Entry(id, i) !in Places(t.blocks))
  {
    hide Sound, Kept, EntriesCopied;
  }

  /** One round of the loop over the entries: `visit` took the state from `t` to `u`. */
  lemma OneEntry(g: Graph, env: Env, root: Item, from: State, id: nat, i: nat, entries: seq<(string, Item)>, t: State,
                 u: State, pending: set<nat>, value: Item)
    requires Filling(g, env, root, from, id, i, entries, t, pending)
    requires i < |g[id].entries|
    requires Sound(g, env, root, u, pending + {id}) && Kept(t.seen, t.output, u.seen, u.output)
    requires t.seen.Keys <= u.seen.Keys <= g.Keys && ItemCopied(env, u.seen, g[id].entries[i].1, value)
    requires Places(u.blocks)
          == Places(t.blocks) + ItemPlaces(Entry(id, i), g[id].entries[i].1) + NodePlaces(g, u.seen.Keys - t.seen.Keys)
    ensures id in t.seen && id in u.seen && u.seen[id] == t.seen[id]
    ensures var more := entries + [(g[id].entries[i].0, value)];
      var filled := u.(output := u.output[u.seen[id] := Node(g[id].isArray, more)]);
      Filling(g, env, root, from, id, i + 1, more, filled, pending)
  {
    hide Good, Kept, Logged, Places, PlacesIn, EntriesCopied, ItemCopied, ItemPlaces, EntryPlaces, NodePlaces;
    var n := Node(g[id].isArray, entries + [(g[id].entries[i].0, value)]);
    KeptTransitive(from.seen, from.output, t.seen, t.output, u.seen, u.output);
    KeptAt(t.seen, t.output, u.seen, u.output, id);
    EntryPlacesStep(g, id, i);
    NodePlacesUnion(g, t.seen.Keys - from.seen.Keys - {id}, u.seen.Keys - t.seen.Keys);
    assert t.seen.Keys - from.seen.Keys - {id} + (u.seen.Keys - t.seen.Keys) == u.seen.Keys - from.seen.Keys - {id};
    SnocCopied(env, t.seen, u.seen, g[id].entries, i, entries, value);
    FillCopy(g, env, u.seen, u.output, u.next, pending + {id}, id, n);
    PendingSeen(g, env, u.seen, u.output, u.next, pending + {id});
    FillKeeps(from.seen, from.output, u.seen, u.output, id, n);
  }

  lemma AllEntries(g: Graph, env: Env, root: Item, from: State, id: nat, entries: seq<(string, Item)>, t: State,
                   pending: set<nat>)
    requires id in g
    requires Filling(g, env, root, from, id, |g[id].entries|, entries, t, pending)
    ensures Sound(g, env, root, t, pending) && Kept(from.seen, from.output, t.seen, t.output)
    ensures ItemCopied(env, t.seen, Ref(id), Ref(t.seen[id])) && t.seen.Keys <= g.Keys
    ensures Places(t.blocks) == Places(from.blocks) + NodePlaces(g, t.seen.Keys - from.seen.Keys)
  {
    hide Good, Kept, Logged, Places, PlacesIn, EntryPlaces, NodePlaces;
    assert g[id].entries[..|g[id].entries|] == g[id].entries;
    PendingSeen(g, env, t.seen, t.output, t.next, pending + {id});
    FinishCopy(g, env, t.seen, t.output, t.next, pending, id);
    IsCopied(env, t.seen, id);
    var others := t.seen.Keys - from.seen.Keys - {id};
    NodePlacesSplit(g, others, id);
    assert others + {id} == t.seen.Keys - from.seen.Keys;
  }

  class Resolver {
    const graph: Graph
    const env: Env
    var seen: map<nat, nat>
    var issues: seq<Issue>
    var output: Graph
    var next: nat
    ghost var blocks: seq<Block>

    constructor (graph: Graph, env: Env)
      ensures this.graph == graph && this.env == env
      ensures seen == map[] && issues == [] && output == map[] && blocks == []
    {
      this.graph := graph;
      this.env := env;
      seen, issues, output, next, blocks := map[], [], map[], 0, [];
    }

    ghost function Now(): State
      reads this
    {
      State(seen, output, next, blocks, issues)
    }

    /** The inner function `visit`. */
    method Visit(value: Item, path: string, ghost root: Item, ghost place: Place, ghost at: Path,
                 ghost region: set<nat>, ghost pending: set<nat>)
      returns (copy: Item)
      requires Sound(graph, env, root, Now(), pending)
      requires seen.Keys <= region && Closed(graph, region) && ItemIn(value, region)
      requires path == Pointer(at) && LeadsTo(graph, root, place, at) && ItemAt(graph, root, place) == value
      requires PlacesIn(Places(blocks), seen.Keys) && place !in Places(blocks)
      modifies this
      ensures Sound(graph, env, root, Now(), pending) && Kept(old(seen), old(output), seen, output)
      ensures seen.Keys <= region && old(seen.Keys) <= seen.Keys
      ensures ItemCopied(env, seen, value, copy)
      ensures Places(blocks)
           == old(Places(blocks)) + ItemPlaces(place, value) + NodePlaces(graph, seen.Keys - old(seen.Keys))
      decreases region - seen.Keys, 1
    {
      hide Leads, LeadsTo, Pointer, EscapeSegment, Substitute, Matches, Good, Kept, Logged, Places, PlacesIn, AllIssues;
      KeptSame(graph, env, seen, output, next, pending);
      assert seen.Keys - old(seen.Keys) == {};
      match value
      case Text(s) =>
        var text, calls, _ := ReplacePlaceholders(s, Lookup(env));
        LogOne(graph, env, root, blocks, issues, Block(place, at));
        issues := issues + Reported(env, calls, path);
        blocks := blocks + [Block(place, at)];
        copy := Text(text);
      case Other(_) =>
        copy := value;
      case Ref(id) =>
        if id in seen {
          copy := Ref(seen[id]);
        } else {
          LeadsToItem(graph, root, place, at);
          copy := CopyObject(id, path, root, at, region, pending);
        }
    }

    /** The part of `visit` for an object met for the first time. */
    method CopyObject(id: nat, path: string, ghost root: Item, ghost at: Path, ghost region: set<nat>,
                      ghost pending: set<nat>)
      returns (copy: Item)
      requires Sound(graph, env, root, Now(), pending)
      requires seen.Keys <= region && Closed(graph, region) && id in region && id !in seen
      requires path == Pointer(at) && Leads(graph, root, at, Ref(id))
      requires PlacesIn(Places(blocks), seen.Keys)
      modifies this
      ensures Sound(graph, env, root, Now(), pending) && Kept(old(seen), old(output), seen, output)
      ensures seen.Keys <= region && old(seen.Keys) <= seen.Keys
      ensures ItemCopied(env, seen, Ref(id), copy)
      ensures Places(blocks) == old(Places(blocks)) + NodePlaces(graph, seen.Keys - old(seen.Keys))
      decreases region - seen.Keys, 0
    {
      hide Leads, LeadsTo, Pointer, EscapeSegment, EntriesCopied, ItemCopied, RefsIn, Kept, Good, Filling, Logged,
           Places, PlacesIn, ItemPlaces, NodePlaces, EntryPlaces;
      PendingSeen(graph, env, seen, output, next, pending);
      var node := graph[id];
      var target := next;
      var entries: seq<(string, Item)> := [];
      StartCopy(graph, env, seen, output, next, pending, id, Node(node.isArray, []));
      ghost var from := Now();
      seen := seen[id := target];
      output := output[target := Node(node.isArray, [])];
      next := next + 1;
      NoEntries(graph, env, root, from, id, Now(), pending);
      for i := 0 to |node.entries|
        invariant seen.Keys <= region && from.seen.Keys + {id} <= seen.Keys && seen[id] == target
        invariant Filling(graph, env, root, from, id, i, entries, Now(), pending)
      {
        var (key, item) := node.entries[i];
        ghost var before := Now();
        EntryIn(graph[id], region, i);
        LeadsToEntry(graph, root, at, id, i);
        PointerChild(at, key);
        FillingIsGood(graph, env, root, from, id, i, entries, before, pending);
        var value := Visit(item, path + "/" + EscapeSegment(key), root, Entry(id, i), at + [key], region,
                           pending + {id});
        OneEntry(graph, env, root, from, id, i, entries, before, Now(), pending, value);
        entries := entries + [(key, value)];
        output := output[target := Node(node.isArray, entries)];
      }
      FillingIsGood(graph, env, root, from, id, |node.entries|, entries, Now(), pending);
      AllEntries(graph, env, root, from, id, entries, Now(), pending);
      copy := Ref(target);
    }
  }

  lemma LeadsToEntry(g: Graph, root: Item, at: Path, id: nat, i: nat)
    requires Leads(g, root, at, Ref(id)) && id in g && i < |g[id].entries|
    ensures LeadsTo(g, root, Entry(id, i), at + [g[id].entries[i].0])
  {
    assert (at + [g[id].entries[i].0])[..|at|] == at;
  }

  lemma PendingSeen(g: Graph, env: Env, seen: map<nat, nat>, output: Graph, next: nat, pending: set<nat>)
    requires Good(g, env, seen, output, next, pending)
    ensures pending <= seen.Keys <= g.Keys && Injective(seen)
  {
  }

  lemma KeptAt(s0: map<nat, nat>, o0: Graph, s1: map<nat, nat>, o1: Graph, id: nat)
    requires Kept(s0, o0, s1, o1) && id in s0
    ensures s0.Keys <= s1.Keys && (forall k :: k in s0 ==> s1[k] == s0[k])
    ensures s0[id] in o0 && s0[id] in o1 && o0[s0[id]] == o1[s0[id]]
  {
    assert SameAt(s0[id], o0, o1);
  }

  lemma IsCopied(env: Env, seen: map<nat, nat>, id: nat)
    requires id in seen
    ensures ItemCopied(env, seen, Ref(id), Ref(seen[id]))
  {
  }

  lemma NothingCopied(env: Env, seen: map<nat, nat>)
    ensures EntriesCopied(env, seen, [], [])
  {
  }

  lemma StillCopied(g: Graph, env: Env, mid: map<nat, nat>, now: map<nat, nat>, was: Graph, output: Graph, id: nat)
    requires Copied(g, env, mid, was, id) && forall k :: k in mid ==> k in now && now[k] == mid[k]
    requires mid[id] in output && output[mid[id]] == was[mid[id]]
    ensures Copied(g, env, now, output, id)
  {
  }

  lemma ValuesAdd(m: map<nat, nat>, k: nat, v: nat)
    requires k !in m
    ensures m[k := v].Values == m.Values + {v}
  {
    var n := m[k := v];
    assert n[k] == v;
    forall x | x in m.Values
      ensures x in n.Values
    {
      var j :| j in m && m[j] == x;
      assert n[j] == x;
    }
  }

  lemma SnocCopied(env: Env, mid: map<nat, nat>, now: map<nat, nat>, es: seq<(string, Item)>, i: nat,
                   fs: seq<(string, Item)>, value: Item)
    requires i < |es| && EntriesCopied(env, mid, es[..i], fs) && ItemCopied(env, now, es[i].1, value)
    requires forall k :: k in mid ==> k in now && now[k] == mid[k]
    ensures EntriesCopied(env, now, es[..i + 1], fs + [(es[i].0, value)])
  {
  }

  lemma EntryIn(n: Node, ids: set<nat>, i: nat)
    requires RefsIn(n, ids) && i < |n.entries|
    ensures ItemIn(n.entries[i].1, ids)
  {
  }

  /** `value` over `output` is `root` with its reachable objects copied one to one as `copies` says. */
  ghost predicate IsCopyOf(g: Graph, env: Env, root: Item, copies: map<nat, nat>, value: Item, output: Graph) {
    && copies.Keys == Reachable(g, root) && copies.Values == output.Keys && Injective(copies)
    && (forall id :: id in copies ==> Copied(g, env, copies, output, id))
    && ItemCopied(env, copies, root, value)
  }

  /** `issues` are the reports of `bs`, one for each string of a reachable object or of the input itself. */
  ghost predicate IsLogOf(g: Graph, env: Env, root: Item, bs: seq<Block>, issues: seq<Issue>)
    requires WellFormed(g, root)
  {
    Logged(g, env, root, bs, issues) && Places(bs) == ItemPlaces(Whole, root) + NodePlaces(g, Reachable(g, root))
  }

  /**
   * resolveConfigVariables. It terminates on every finite graph, cyclic or not; the result is the
   * reachable part of the input, node for node and edge for edge, with every string resolved; the
   * issues are those of one block for every string reached, each listing the unresolved placeholders of
   * that string in order under a pointer that leads to it.
   */
  method ResolveConfigVariables(input: Item, graph: Graph, env: Env)
    returns (value: Item, output: Graph, issues: seq<Issue>)
    requires WellFormed(graph, input)
    ensures exists copies :: IsCopyOf(graph, env, input, copies, value, output)
    ensures exists bs :: IsLogOf(graph, env, input, bs, issues)
  {
    hide Logged, Copied, ItemCopied, Reachable, Places, ItemPlaces, NodePlaces;
    var resolver := new Resolver(graph, env);
    ghost var region := Reachable(graph, input);
    ReachableIsClosed(graph, input);
    LogNothing(graph, env, input);
    assert resolver.seen.Keys == {};
    value := resolver.Visit(input, "", input, Whole, [], region, {});
    output, issues := resolver.output, resolver.issues;
    ghost var copies := resolver.seen;
    CopiedIsClosed(graph, env, input, copies, output, value);
    assert copies.Keys - {} == region;
    assert IsCopyOf(graph, env, input, copies, value, output);
    assert IsLogOf(graph, env, input, resolver.blocks, issues);
  }

  lemma CopiedIsClosed(g: Graph, env: Env, root: Item, seen: map<nat, nat>, output: Graph, value: Item)
    requires forall id :: id in seen ==> Copied(g, env, seen, output, id)
    requires ItemCopied(env, seen, root, value)
    ensures Reachable(g, root) <= seen.Keys
  {
    forall id | id in seen
      ensures id in g && RefsIn(g[id], seen.Keys)
    {
      assert Copied(g, env, seen, output, id);
    }
    assert Closed(g, seen.Keys);
  }
}
