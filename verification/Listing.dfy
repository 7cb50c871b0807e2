/** The lists a page numbers and groups. */
module Listing {
  import opened Decimal
  import opened Sequences

  // ---- repositories under their owners ----

  datatype Repo = Repo(id: string, owner: string, name: string)
  datatype Group = Group(owner: string, repos: seq<Repo>)

  /** The owners of the rows, in the order each first appears. */
  function Owners(rows: seq<Repo>): seq<string> {
    if rows == [] then []
    else
      var before, owner := Owners(rows[..|rows| - 1]), rows[|rows| - 1].owner;
      if owner in before then before else before + [owner]
  }

  /** The rows of one owner, in order. */
  function Owned(rows: seq<Repo>, owner: string): seq<Repo> {
    if rows == [] then []
    else
      var before, last := Owned(rows[..|rows| - 1], owner), rows[|rows| - 1];
      if last.owner == owner then before + [last] else before
  }

  function GroupOf(rows: seq<Repo>, owner: string): Group {
    Group(owner, Owned(rows, owner))
  }

  function Grouped(rows: seq<Repo>): seq<Group> {
    seq(|Owners(rows)|, i requires 0 <= i < |Owners(rows)| => GroupOf(rows, Owners(rows)[i]))
  }

  predicate Distinct<T(==)>(s: seq<T>) {
    forall i, j :: 0 <= i < j < |s| ==> s[i] != s[j]
  }

  lemma {:induction false} OwnersDistinct(rows: seq<Repo>)
    ensures Distinct(Owners(rows))
    ensures forall o :: o in Owners(rows) <==> exists i :: 0 <= i < |rows| && rows[i].owner == o
    decreases |rows|
  {
    if rows != [] {
      var front := rows[..|rows| - 1];
      OwnersDistinct(front);
      forall o ensures o in Owners(rows) <==> exists i :: 0 <= i < |rows| && rows[i].owner == o {
        if o in Owners(front) {
          var i :| 0 <= i < |front| && front[i].owner == o;
          assert rows[i].owner == o;
        } else if exists i :: 0 <= i < |rows| && rows[i].owner == o {
          var i :| 0 <= i < |rows| && rows[i].owner == o;
          assert i < |front| ==> front[i].owner == o;
        }
        assert o == rows[|rows| - 1].owner ==> o in Owners(rows);
      }
    }
  }

  /** What one more row does to the groups: it joins its owner's or starts one. */
  lemma GroupedStep(rows: seq<Repo>, row: Repo)
    ensures var owners := Owners(rows);
            if row.owner in owners then
              Owners(rows + [row]) == owners &&
              forall i :: 0 <= i < |owners| ==>
                Grouped(rows + [row])[i] ==
                  if owners[i] == row.owner then Group(row.owner, Owned(rows, row.owner) + [row]) else Grouped(rows)[i]
            else
              Grouped(rows + [row]) == Grouped(rows) + [Group(row.owner, [row])]
  {
    var whole := rows + [row];
    assert whole[..|whole| - 1] == rows;
    if row.owner !in Owners(rows) {
      NotOwned(rows, row.owner);
      var owners := Owners(rows);
      assert Owners(whole) == owners + [row.owner];
      forall i | 0 <= i < |owners| ensures Grouped(whole)[i] == Grouped(rows)[i] {
        assert owners[i] in owners;
      }
      assert Grouped(whole)[|owners|] == Group(row.owner, [row]);
    }
  }

  lemma {:induction false} NotOwned(rows: seq<Repo>, owner: string)
    requires owner !in Owners(rows)
    ensures Owned(rows, owner) == []
    decreases |rows|
  {
    if rows != [] {
      NotOwned(rows[..|rows| - 1], owner);
    }
  }

  /** Where each owner's group is. */
  ghost predicate Indexed(at: map<string, nat>, owners: seq<string>) {
    (forall o <- owners :: o in at) &&
    forall o <- at :: at[o] < |owners| && owners[at[o]] == o
  }

  method GroupByOwner(rows: seq<Repo>) returns (out: seq<Group>)
    ensures out == Grouped(rows)
  {
    out := [];
    var at: map<string, nat> := map[];
    for k := 0 to |rows|
      invariant out == Grouped(rows[..k])
      invariant Indexed(at, Owners(rows[..k]))
    {
      hide Owners, Owned, Grouped, Distinct;
      var row := rows[k];
      ghost var before := rows[..k];
      assert rows[..k + 1] == before + [row];
      GroupedStep(before, row);
      GroupsMatchOwners(before);
      GroupsMatchOwners(before + [row]);
      OwnersAppend(before, row);
      if row.owner !in at {
        at := at[row.owner := |out|];
        out := out + [Group(row.owner, [])];
      }
      var i := at[row.owner];
      out := out[i := out[i].(repos := out[i].repos + [row])];
      SameGroups(out, before, row, i);
    }
    assert rows[..|rows|] == rows;
  }

  lemma GroupsMatchOwners(rows: seq<Repo>)
    ensures |Grouped(rows)| == |Owners(rows)|
    ensures forall i, j :: 0 <= i < j < |Owners(rows)| ==> Owners(rows)[i] != Owners(rows)[j]
    ensures forall i :: 0 <= i < |Owners(rows)| ==>
      Grouped(rows)[i].owner == Owners(rows)[i] && Grouped(rows)[i].repos == Owned(rows, Owners(rows)[i])
  {
    OwnersDistinct(rows);
  }

  lemma GroupLengths(rows: seq<Repo>)
    ensures |Grouped(rows)| == |Owners(rows)|
    ensures forall i :: 0 <= i < |Owners(rows)| ==>
      Grouped(rows)[i] == Group(Owners(rows)[i], Owned(rows, Owners(rows)[i]))
  {
  }

  lemma OwnersAppend(rows: seq<Repo>, row: Repo)
    ensures Owners(rows + [row]) == if row.owner in Owners(rows) then Owners(rows) else Owners(rows) + [row.owner]
  {
    assert (rows + [row])[..|rows|] == rows;
  }

  lemma SameGroups(out: seq<Group>, rows: seq<Repo>, row: Repo, i: nat)
    requires i < |out| == |Grouped(rows + [row])|
    requires forall j :: 0 <= j < |out| ==> out[j] == Grouped(rows + [row])[j]
    ensures out == Grouped(rows + [row])
  {
  }

  function Sizes(groups: seq<Group>): nat {
    if groups == [] then 0 else Sizes(groups[..|groups| - 1]) + |groups[|groups| - 1].repos|
  }

  /** The groups are a stable partition of the rows: distinct owners, none empty,
      each the rows of its owner in order, and together as many as the rows. */
  lemma GroupsPartition(rows: seq<Repo>)
    ensures var groups := Grouped(rows);
            Distinct(Owners(rows)) && |groups| == |Owners(rows)| &&
            (forall i :: 0 <= i < |groups| ==>
               groups[i].owner == Owners(rows)[i] && groups[i].repos == Owned(rows, groups[i].owner) &&
                   groups[i].repos != []) &&
            Sizes(groups) == |rows|
  {
    OwnersDistinct(rows);
    GroupLengths(rows);
    forall o | o in Owners(rows) ensures Owned(rows, o) != [] {
      SomeOwned(rows, o);
    }
    SizesAddUp(rows);
    hide Owners, Owned;
  }

  /** The rows of an owner are exactly the rows that name them, in order. */
  lemma {:induction false} OwnedSelects(rows: seq<Repo>, owner: string)
    ensures Selected(rows, Owned(rows, owner), OfOwner(owner))
    decreases |rows|
  {
    hide Selected;
    var p := OfOwner(owner);
    if rows == [] {
      SelectsNothing(p);
    } else {
      var front, last := rows[..|rows| - 1], rows[|rows| - 1];
      OwnedSelects(front, owner);
      SelectsMore(front, Owned(front, owner), p, last);
      assert rows == front + [last];
      assert p(last) <==> last.owner == owner;
    }
  }

  function OfOwner(owner: string): Repo -> bool { (r: Repo) => r.owner == owner }

  /** Both that a row is kept and that it is the owner's. */
  function KeptOf(keeps: Repo -> bool, owner: string): Repo -> bool { (r: Repo) => keeps(r) && r.owner == owner }

  /** Some row of one owner comes before every row of the other. */
  ghost predicate SeenBefore(rows: seq<Repo>, first: string, second: string) {
    exists k :: 0 <= k < |rows| && rows[k].owner == first && forall j :: 0 <= j <= k ==> rows[j].owner != second
  }

  ghost predicate SeenInOrder(rows: seq<Repo>, owners: seq<string>) {
    forall i, j :: 0 <= i < j < |owners| ==> SeenBefore(rows, owners[i], owners[j])
  }

  lemma {:induction false} OwnersInOrder(rows: seq<Repo>)
    ensures SeenInOrder(rows, Owners(rows))
    decreases |rows|
  {
    if rows != [] {
      var front, last := rows[..|rows| - 1], rows[|rows| - 1];
      OwnersInOrder(front);
      OwnersDistinct(front);
      assert rows == front + [last];
      OwnersAppend(front, last);
      var owners := Owners(front);
      hide Owners, SeenBefore;
      forall i, j | 0 <= i < j < |Owners(rows)| ensures SeenBefore(rows, Owners(rows)[i], Owners(rows)[j]) {
        if j < |owners| {
          SeenLater(front, last, owners[i], owners[j]);
        } else {
          assert owners[i] in owners && last.owner !in owners;
          FirstSeenLast(front, last, owners[i]);
        }
      }
    }
  }

  lemma SeenLater(rows: seq<Repo>, last: Repo, first: string, second: string)
    requires SeenBefore(rows, first, second)
    ensures SeenBefore(rows + [last], first, second)
  {
    var k :| 0 <= k < |rows| && rows[k].owner == first && forall j :: 0 <= j <= k ==> rows[j].owner != second;
    var more := rows + [last];
    assert more[k].owner == first && forall j :: 0 <= j <= k ==> more[j].owner != second;
  }

  lemma FirstSeenLast(rows: seq<Repo>, last: Repo, first: string)
    requires exists i :: 0 <= i < |rows| && rows[i].owner == first
    requires forall i :: 0 <= i < |rows| ==> rows[i].owner != last.owner
    ensures SeenBefore(rows + [last], first, last.owner)
  {
    var k :| 0 <= k < |rows| && rows[k].owner == first;
    var more := rows + [last];
    assert more[k].owner == first && forall j :: 0 <= j <= k ==> more[j].owner != last.owner;
  }

  lemma {:induction false} SomeOwned(rows: seq<Repo>, owner: string)
    requires owner in Owners(rows)
    ensures Owned(rows, owner) != []
    decreases |rows|
  {
    var front := rows[..|rows| - 1];
    if owner in Owners(front) {
      SomeOwned(front, owner);
    }
  }

  lemma {:induction false} SizesOneMore(a: seq<Group>, b: seq<Group>, i: nat, row: Repo)
    requires |a| == |b| && i < |a|
    requires forall j :: 0 <= j < |a| ==> b[j].repos == if j == i then a[j].repos + [row] else a[j].repos
    ensures Sizes(b) == Sizes(a) + 1
    decreases |a|
  {
    var n := |a| - 1;
    if i == n {
      SizesSame(a[..n], b[..n]);
    } else {
      SizesOneMore(a[..n], b[..n], i, row);
    }
  }

  lemma {:induction false} SizesSame(a: seq<Group>, b: seq<Group>)
    requires |a| == |b| && forall j :: 0 <= j < |a| ==> b[j].repos == a[j].repos
    ensures Sizes(b) == Sizes(a)
    decreases |a|
  {
    if a != [] { SizesSame(a[..|a| - 1], b[..|b| - 1]); }
  }

  lemma {:induction false} SizesAddUp(rows: seq<Repo>)
    ensures Sizes(Grouped(rows)) == |rows|
    decreases |rows|
  {
    if rows == [] {
      assert Grouped(rows) == [];
    } else {
      var front, row := rows[..|rows| - 1], rows[|rows| - 1];
      SizesAddUp(front);
      assert rows == front + [row];
      GroupedStep(front, row);
      GroupLengths(front);
      OwnersDistinct(front);
      OwnersAppend(front, row);
      GroupLengths(rows);
      hide Owners, Owned, Grouped;
      if row.owner in Owners(front) {
        var i :| 0 <= i < |Owners(front)| && Owners(front)[i] == row.owner;
        SizesOneMore(Grouped(front), Grouped(rows), i, row);
      } else {
        assert Grouped(rows)[..|Grouped(rows)| - 1] == Grouped(front);
      }
    }
  }

  // ---- the filter over a directory ----

  function Filter(rows: seq<Repo>, matches: Repo -> bool): seq<Repo> {
    if rows == [] then []
    else
      var before, last := Filter(rows[..|rows| - 1], matches), rows[|rows| - 1];
      if matches(last) then before + [last] else before
  }

  lemma {:induction false} FilterSelects(rows: seq<Repo>, matches: Repo -> bool)
    ensures Selected(rows, Filter(rows, matches), matches)
    decreases |rows|
  {
    if rows == [] {
      SelectsNothing(matches);
    } else {
      var front, last := rows[..|rows| - 1], rows[|rows| - 1];
      FilterSelects(front, matches);
      SelectsMore(front, Filter(front, matches), matches, last);
      assert rows == front + [last];
    }
  }

  /** The rows that a test keeps, under their owners: the owners are distinct and stand as
      they are first met among those rows; each has the rows kept of theirs and at least
      one, in order and as often as sent; no kept row is without its owner; and the
      number is that of the rows kept. */
  ghost predicate Listed(rows: seq<Repo>, keeps: Repo -> bool, owners: seq<Group>, count: nat) {
    Distinct(Named(owners)) &&
    (forall g <- owners ::
       g.repos != [] && Selected(rows, g.repos, KeptOf(keeps, g.owner))) &&
    (forall r <- rows :: keeps(r) ==> r.owner in Named(owners)) &&
    exists kept :: Selected(rows, kept, keeps) && SeenInOrder(kept, Named(owners)) && |kept| == count
  }

  function Named(owners: seq<Group>): seq<string> {
    seq(|owners|, i requires 0 <= i < |owners| => owners[i].owner)
  }

  lemma OwnedOfKept(rows: seq<Repo>, kept: seq<Repo>, keeps: Repo -> bool, owner: string)
    requires Selected(rows, kept, keeps)
    ensures Selected(rows, Owned(kept, owner), KeptOf(keeps, owner))
  {
    hide Selected, Owned;
    OwnedSelects(kept, owner);
    SelectsTwice(rows, kept, Owned(kept, owner), keeps, OfOwner(owner));
    forall r | r in rows ensures Both(keeps, OfOwner(owner))(r) <==> KeptOf(keeps, owner)(r) {
      assert OfOwner(owner)(r) <==> r.owner == owner;
    }
    SelectsSame(rows, Owned(kept, owner), Both(keeps, OfOwner(owner)), KeptOf(keeps, owner));
  }

  lemma NamedAreOwners(rows: seq<Repo>)
    ensures Named(Grouped(rows)) == Owners(rows)
  {
    GroupLengths(rows);
    hide Owners, Owned, Grouped;
  }

  lemma OwnerIsNamed(rows: seq<Repo>, kept: seq<Repo>, keeps: Repo -> bool)
    requires Selected(rows, kept, keeps)
    ensures forall r <- rows :: keeps(r) ==> r.owner in Owners(kept)
  {
    OwnersDistinct(kept);
    SelectsMembers(rows, kept, keeps);
    hide Selected, Owners;
    forall r | r in rows && keeps(r) ensures r.owner in Owners(kept) {
      assert r in kept;
      var k :| 0 <= k < |kept| && kept[k] == r;
      assert kept[k].owner == r.owner;
    }
  }

  /** Grouping what a test has kept lists it. */
  lemma GroupedIsListed(rows: seq<Repo>, kept: seq<Repo>, keeps: Repo -> bool)
    requires Selected(rows, kept, keeps)
    ensures Listed(rows, keeps, Grouped(kept), |kept|)
  {
    var groups := Grouped(kept);
    GroupsPartition(kept);
    OwnersInOrder(kept);
    OwnerIsNamed(rows, kept, keeps);
    NamedAreOwners(kept);
    hide *;
    forall g | g in groups ensures g.repos != [] && Selected(rows, g.repos, KeptOf(keeps, g.owner)) {
      var i :| 0 <= i < |groups| && groups[i] == g;
      OwnedOfKept(rows, kept, keeps, g.owner);
    }
    ListedBy(rows, keeps, groups, kept);
  }

  lemma ListedBy(rows: seq<Repo>, keeps: Repo -> bool, owners: seq<Group>, kept: seq<Repo>)
    requires Distinct(Named(owners)) && SeenInOrder(kept, Named(owners)) && Selected(rows, kept, keeps)
    requires forall g <- owners :: g.repos != [] && Selected(rows, g.repos, KeptOf(keeps, g.owner))
    requires forall r <- rows :: keeps(r) ==> r.owner in Named(owners)
    ensures Listed(rows, keeps, owners, |kept|)
  {
    hide Distinct, SeenInOrder, Selected, Named;
  }

  /** The directory as the home screen shows it. The answer is the whole directory
      when it ends no page and began none, and only then is the filter applied. */
  method ListDirectory(items: seq<Repo>, next: string, cursor: string, matches: Repo -> bool)
    returns (canFilter: bool, count: nat, owners: seq<Group>)
    ensures canFilter <==> next == "" && cursor == ""
    ensures owners == Grouped(if canFilter then Filter(items, matches) else items)
    ensures count == Sizes(owners)
    ensures Listed(items, r => canFilter ==> matches(r), owners, count)
    ensures (forall r <- items :: matches(r)) ==> count == |items|
  {
    canFilter := next == "" && cursor == "";
    var rows: seq<Repo> := [];
    for k := 0 to |items|
      invariant rows == if canFilter then Filter(items[..k], matches) else items[..k]
    {
      assert items[..k + 1][..k] == items[..k];
      if canFilter && !matches(items[k]) {
        continue;
      }
      rows := rows + [items[k]];
    }
    assert items[..|items|] == items;
    count := |rows|;
    owners := GroupByOwner(rows);
    SizesAddUp(rows);
    ShownIsListed(items, matches, canFilter);
  }

  /** What is shown of a directory, whole or one page of it. */
  lemma ShownIsListed(rows: seq<Repo>, matches: Repo -> bool, canFilter: bool)
    ensures var kept := if canFilter then Filter(rows, matches) else rows;
      Listed(rows, r => canFilter ==> matches(r), Grouped(kept), |kept|) &&
      ((forall r <- rows :: matches(r)) ==> kept == rows)
  {
    var kept := if canFilter then Filter(rows, matches) else rows;
    if canFilter {
      FilterSelects(rows, matches);
      SelectsSame(rows, kept, matches, r => canFilter ==> matches(r));
      if forall r <- rows :: matches(r) {
        SelectsAll(rows, kept, matches);
      }
    } else {
      SelectsEverything(rows, r => canFilter ==> matches(r));
    }
    hide Filter, Selected;
    GroupedIsListed(rows, kept, r => canFilter ==> matches(r));
  }

  // ---- names in order ----

  /** Go's order on strings. */
  predicate Before(a: string, b: string) {
    b != "" && (a == "" || a[0] < b[0] || (a[0] == b[0] && Before(a[1..], b[1..])))
  }

  predicate Sorted(names: seq<string>) {
    forall i, j :: 0 <= i < j < |names| ==> !Before(names[j], names[i])
  }

  function Insert(names: seq<string>, name: string): seq<string> {
    if names == [] || !Before(names[0], name) then [name] + names
    else [names[0]] + Insert(names[1..], name)
  }

  function SortNames(names: seq<string>): seq<string> {
    if names == [] then [] else Insert(SortNames(names[1..]), names[0])
  }

  lemma {:induction false} OrderIsTotal(a: string, b: string)
    ensures !(Before(a, b) && Before(b, a))
    ensures !Before(a, b) && !Before(b, a) ==> a == b
    decreases |a|
  {
    if a != "" && b != "" && a[0] == b[0] {
      OrderIsTotal(a[1..], b[1..]);
      assert a == [a[0]] + a[1..] && b == [b[0]] + b[1..];
    }
  }

  lemma {:induction false} OrderIsTransitive(a: string, b: string, c: string)
    requires !Before(b, a) && !Before(c, b)
    ensures !Before(c, a)
    decreases |a|
  {
    if a != "" && b != "" && c != "" && a[0] == b[0] == c[0] {
      OrderIsTransitive(a[1..], b[1..], c[1..]);
    }
  }

  lemma {:induction false} InsertKeeps(names: seq<string>, name: string)
    ensures multiset(Insert(names, name)) == multiset(names) + multiset{name}
    decreases |names|
  {
    hide Before;
    if names != [] && Before(names[0], name) {
      InsertKeeps(names[1..], name);
      assert names == [names[0]] + names[1..];
    }
  }

  lemma {:induction false} InsertSorts(names: seq<string>, name: string)
    requires Sorted(names)
    ensures Sorted(Insert(names, name))
    decreases |names|
  {
    hide Before;
    if names != [] && !Before(names[0], name) {
      forall j | 0 < j < |names| ensures !Before(names[j], name) {
        OrderIsTransitive(name, names[0], names[j]);
      }
    } else if names != [] {
      var rest := Insert(names[1..], name);
      InsertSorts(names[1..], name);
      InsertKeeps(names[1..], name);
      OrderIsTotal(names[0], name);
      hide Insert;
      forall j | 0 <= j < |rest| ensures !Before(rest[j], names[0]) {
        InsertedFrom(names[1..], name, rest, j);
      }
    }
  }

  lemma InsertedFrom(names: seq<string>, name: string, rest: seq<string>, j: nat)
    requires multiset(rest) == multiset(names) + multiset{name} && j < |rest|
    ensures rest[j] == name || rest[j] in names
  {
    assert rest[j] in multiset(rest);
  }

  /** The references are in order, each as often as it was sent. */
  lemma {:induction false} NamesAreSorted(names: seq<string>)
    ensures Sorted(SortNames(names)) && multiset(SortNames(names)) == multiset(names)
    decreases |names|
  {
    if names != [] {
      NamesAreSorted(names[1..]);
      InsertSorts(SortNames(names[1..]), names[0]);
      InsertKeeps(SortNames(names[1..]), names[0]);
      assert names == [names[0]] + names[1..];
      hide Sorted, Insert;
    }
  }

  lemma TailKeeps(names: seq<string>)
    requires names != []
    ensures multiset(names[1..]) == multiset(names) - multiset{names[0]}
  {
    assert names == [names[0]] + names[1..];
  }

  lemma FirstIsLeast(a: seq<string>, b: seq<string>)
    requires Sorted(a) && a != [] && b != [] && multiset(a) == multiset(b)
    ensures !Before(b[0], a[0])
  {
    hide Before;
    assert b[0] in multiset(a);
    var j :| 0 <= j < |a| && a[j] == b[0];
    OrderIsTotal(a[0], a[0]);
  }

  /** There is one such order, so it does not matter how the names are sorted. */
  lemma {:induction false} OneOrder(a: seq<string>, b: seq<string>)
    requires Sorted(a) && Sorted(b) && multiset(a) == multiset(b)
    ensures a == b
    decreases |a|
  {
    hide Before;
    assert |a| == |multiset(a)| && |b| == |multiset(b)|;
    if a != [] {
      FirstIsLeast(a, b);
      FirstIsLeast(b, a);
      OrderIsTotal(a[0], b[0]);
      TailKeeps(a);
      TailKeeps(b);
      OneOrder(a[1..], b[1..]);
      assert a == [a[0]] + a[1..] && b == [b[0]] + b[1..];
    }
  }

  // ---- numbered fields ----

  datatype CopyItem = CopyItem(id: string, title: string, value: string)

  predicate HasValue(it: CopyItem) { it.value != "" }

  /** The fields that have a value, in order, each with its number for an id. */
  ghost predicate NumberedFrom(items: seq<CopyItem>, out: seq<CopyItem>) {
    exists kept :: Selected(items, kept, HasValue) && Renumbers(kept, out)
  }

  predicate Renumbers(kept: seq<CopyItem>, out: seq<CopyItem>) {
    |kept| == |out| && forall i :: 0 <= i < |out| ==> out[i] == kept[i].(id := "copy-" + Numeral(i + 1))
  }

  /** The fields that have a value, each numbered by its place. */
  method CopyList(items: seq<CopyItem>) returns (out: seq<CopyItem>)
    requires |items| <= MAX_INT
    ensures NumberedFrom(items, out)
    ensures Distinct(Ids(out))
  {
    hide Numeral, Selected;
    out := [];
    ghost var kept: seq<CopyItem> := [];
    SelectsNothing(HasValue);
    for k := 0 to |items|
      invariant |out| <= k
      invariant Selected(items[..k], kept, HasValue) && Renumbers(kept, out)
    {
      var it := items[k];
      assert items[..k + 1] == items[..k] + [it];
      SelectsMore(items[..k], kept, HasValue, it);
      if it.value != "" {
        kept := kept + [it];
        var n := Itoa(|out| + 1);
        it := it.(id := "copy-" + n);
        out := out + [it];
      }
    }
    assert items[..|items|] == items;
    IdsDistinct(out, "copy-");
  }

  function Ids(items: seq<CopyItem>): seq<string> {
    seq(|items|, i requires 0 <= i < |items| => items[i].id)
  }

  /** Numbering gives every field its own id, however many there are. */
  lemma IdsDistinct(out: seq<CopyItem>, mark: string)
    requires forall i :: 0 <= i < |out| ==> out[i].id == mark + Numeral(i + 1)
    ensures Distinct(Ids(out))
  {
    hide Numeral;
    forall i, j | 0 <= i < j < |out| ensures Ids(out)[i] != Ids(out)[j] {
      if Ids(out)[i] == Ids(out)[j] {
        var a, b := mark + Numeral(i + 1), mark + Numeral(j + 1);
        assert a[|mark|..] == Numeral(i + 1) && b[|mark|..] == Numeral(j + 1);
        NumeralInjective(i + 1, j + 1);
      }
    }
  }
}
