/**
 Registry keys: a metric name with its tags printed as `name{k=v,k2=v2}`, tags sorted by key,
 and the parser the exporter applies to such keys.
 */
module MetricKeys {
  import opened Common
  import StableSort

  type Tag = (string, string)

  // ---- Strings ----------------------------------------------------------------------

  function IndexOf(s: string, c: char): (r: Option<nat>)
    ensures r.None? ==> c !in s
    ensures r.Some? ==> r.value < |s| && s[r.value] == c && c !in s[..r.value]
  {
    if s == "" then None
    else if s[0] == c then Some(0)
    else
      match IndexOf(s[1..], c)
      case None => None
      case Some(i) =>
        assert s[..i + 1] == [s[0]] + s[1..][..i];
        Some(i + 1)
  }

  function LastIndexOf(s: string, c: char): (r: Option<nat>)
    ensures r.None? ==> c !in s
    ensures r.Some? ==> r.value < |s| && s[r.value] == c && c !in s[r.value + 1..]
  {
    if s == "" then None
    else if s[|s| - 1] == c then Some(|s| - 1)
    else
      match LastIndexOf(s[..|s| - 1], c)
      case None => None
      case Some(i) =>
        assert s[i + 1..] == s[..|s| - 1][i + 1..] + [s[|s| - 1]];
        Some(i)
  }

  /** `s.slice(start, end)`; an end of -1 counts from the back. */
  function Slice(s: string, start: nat, end: int): string
    requires start <= |s| && -1 <= end <= |s|
  {
    var e := if end < 0 then |s| - 1 else end;
    if e <= start then "" else s[start..e]
  }

  /** `s.split(c)`: always at least one part. */
  function Split(s: string, c: char): (parts: seq<string>)
    ensures parts != []
    ensures forall p :: p in parts ==> c !in p
  {
    if s == "" then [""]
    else
      var rest := Split(s[1..], c);
      if s[0] == c then [""] + rest else [[s[0]] + rest[0]] + rest[1..]
  }

  function Join(parts: seq<string>, c: char): string {
    if parts == [] then ""
    else if |parts| == 1 then parts[0]
    else parts[0] + [c] + Join(parts[1..], c)
  }

  lemma {:induction false} SplitPrefix(p: string, s: string, c: char)
    requires c !in p
    ensures Split(p + s, c) == [p + Split(s, c)[0]] + Split(s, c)[1..]
  {
    var parts := Split(s, c);
    if p == "" {
      assert p + s == s && p + parts[0] == parts[0];
    } else {
      assert (p + s)[1..] == p[1..] + s;
      SplitPrefix(p[1..], s, c);
      assert [p[0]] + (p[1..] + parts[0]) == p + parts[0];
    }
  }

  lemma {:induction false} SplitJoin(parts: seq<string>, c: char)
    requires parts != [] && forall p :: p in parts ==> c !in p
    ensures Split(Join(parts, c), c) == parts
  {
    if |parts| == 1 {
      SplitPrefix(parts[0], "", c);
      assert parts[0] + "" == parts[0];
    } else {
      var rest := Join(parts[1..], c);
      SplitJoin(parts[1..], c);
      SplitPrefix(parts[0], [c] + rest, c);
      assert ([c] + rest)[1..] == rest;
      assert Join(parts, c) == parts[0] + ([c] + rest);
      assert parts[0] + "" == parts[0];
    }
  }

  // ---- Sorting tags by key ----------------------------------------------------------

  /** `localeCompare` compares two strings by sort keys; different strings can have the same one. */
  type Collation = string -> string

  /** Lexicographic order of strings. */
  predicate StrLe(a: string, b: string) {
    if a == "" then true
    else if b == "" then false
    else if a[0] == b[0] then StrLe(a[1..], b[1..])
    else a[0] < b[0]
  }

  lemma {:induction false} StrLeTotal(a: string, b: string)
    ensures StrLe(a, b) || StrLe(b, a)
  {
    if a != "" && b != "" && a[0] == b[0] {
      StrLeTotal(a[1..], b[1..]);
    }
  }

  lemma {:induction false} StrLeAntisymmetric(a: string, b: string)
    requires StrLe(a, b) && StrLe(b, a)
    ensures a == b
  {
    if a != "" && b != "" {
      StrLeAntisymmetric(a[1..], b[1..]);
      assert a == [a[0]] + a[1..] && b == [b[0]] + b[1..];
    }
  }

  lemma {:induction false} StrLeTransitive(a: string, b: string, c: string)
    requires StrLe(a, b) && StrLe(b, c)
    ensures StrLe(a, c)
  {
    if a != "" && b != "" && c != "" && a[0] == b[0] == c[0] {
      StrLeTransitive(a[1..], b[1..], c[1..]);
    }
  }

  /** The shorter of two strings that agree so far comes first; else the first difference decides. */
  lemma {:induction false} StrLeIff(a: string, b: string)
    ensures StrLe(a, b) <==> a <= b || exists k :: 0 <= k < |a| && k < |b| && a[..k] == b[..k] && a[k] < b[k]
  {
    if a != "" && b != "" && a[0] == b[0] {
      StrLeIff(a[1..], b[1..]);
      FirstDifference(a, b);
    } else if a != "" && b != "" && a[0] < b[0] {
      assert a[..0] == b[..0];
    }
  }

  lemma FirstDifference(a: string, b: string)
    requires a != "" && b != "" && a[0] == b[0]
    ensures a <= b <==> a[1..] <= b[1..]
    ensures (exists k :: 0 <= k < |a| && k < |b| && a[..k] == b[..k] && a[k] < b[k])
            <==> exists k :: 0 <= k < |a[1..]| && k < |b[1..]| && a[1..][..k] == b[1..][..k] && a[1..][k] < b[1..][k]
  {
    assert a == [a[0]] + a[1..] && b == [b[0]] + b[1..];
    if k :| 0 <= k < |a| && k < |b| && a[..k] == b[..k] && a[k] < b[k] {
      assert k > 0;
      assert a[1..][..k - 1] == a[..k][1..] && b[1..][..k - 1] == b[..k][1..];
      assert a[1..][k - 1] == a[k] && b[1..][k - 1] == b[k];
    }
    if k :| 0 <= k < |a[1..]| && k < |b[1..]| && a[1..][..k] == b[1..][..k] && a[1..][k] < b[1..][k] {
      assert a[..k + 1] == [a[0]] + a[1..][..k] && b[..k + 1] == [b[0]] + b[1..][..k];
      assert a[k + 1] < b[k + 1];
    }
  }

  /** `Object.entries` lists keys that are array indices first, by number, then the others as written. */
  function Rank(key: string): nat {
    if IsIndex(key) then Number(key) else 0xFFFF_FFFF
  }

  predicate IsIndex(key: string) {
    key != "" && AllDigits(key) && (key == "0" || key[0] != '0') && Number(key) < 0xFFFF_FFFF
  }

  predicate AllDigits(text: string) {
    forall i :: 0 <= i < |text| ==> '0' <= text[i] <= '9'
  }

  /** The number a string of decimal digits stands for. */
  function Number(text: string): (n: int)
    ensures AllDigits(text) ==> n >= 0
  {
    if text == "" then 0
    else
      assert AllDigits(text) ==> AllDigits(text[..|text| - 1]);
      Number(text[..|text| - 1]) * 10 + (text[|text| - 1] as int - '0' as int)
  }

  function ByRank(): (Tag, Tag) -> bool {
    (t: Tag, u: Tag) => Rank(t.0) <= Rank(u.0)
  }

  function ByKey(c: Collation): (Tag, Tag) -> bool {
    (t: Tag, u: Tag) => StrLe(c(t.0), c(u.0))
  }

  /** By sort key; tags whose keys compare as equal in the order of `Object.entries`. */
  function ByKeyThenRank(c: Collation): (Tag, Tag) -> bool {
    (t: Tag, u: Tag) => StrLe(c(t.0), c(u.0)) && (c(t.0) == c(u.0) ==> Rank(t.0) <= Rank(u.0))
  }

  function Entries(tags: seq<Tag>): seq<Tag> {
    StableSort.Sorted(ByRank(), tags)
  }

  /** The tags of an object, written in this order, as the key shows them. */
  function Arranged(c: Collation, tags: seq<Tag>): (r: seq<Tag>)
    ensures multiset(r) == multiset(tags) && |r| == |tags|
  {
    var r := StableSort.Sorted(ByKey(c), Entries(tags));
    StableSort.SameSize(r, tags);
    r
  }

  lemma StrOrders(c: Collation)
    ensures StableSort.Refines(ByKeyThenRank(c), ByKey(c))
    ensures StableSort.Orders(ByRank())
  {
    forall t: Tag, u: Tag
      ensures (ByKey(c)(t, u) || ByKey(c)(u, t)) && (ByKeyThenRank(c)(t, u) || ByKeyThenRank(c)(u, t))
    {
      StrLeTotal(c(t.0), c(u.0));
    }
    forall t: Tag, u: Tag, v: Tag | ByKey(c)(t, u) && ByKey(c)(u, v)
      ensures ByKey(c)(t, v) && (ByKeyThenRank(c)(t, u) && ByKeyThenRank(c)(u, v) ==> ByKeyThenRank(c)(t, v))
    {
      StrLeTransitive(c(t.0), c(u.0), c(v.0));
      if c(t.0) == c(v.0) {
        StrLeAntisymmetric(c(t.0), c(u.0));
      }
    }
  }

  lemma ArrangedInOrder(c: Collation, tags: seq<Tag>)
    ensures StableSort.Ascending(ByKeyThenRank(c), Arranged(c, tags))
  {
    StrOrders(c);
    StableSort.SortedIsStable(ByRank(), ByRank(), tags);
    var entries := Entries(tags);
    forall i, j | 0 <= i < j < |entries| && ByKey(c)(entries[i], entries[j]) && ByKey(c)(entries[j], entries[i])
      ensures ByKeyThenRank(c)(entries[i], entries[j])
    {
      assert ByRank()(entries[i], entries[j]);
    }
    StableSort.SortedIsStable(ByKeyThenRank(c), ByKey(c), entries);
  }

  /** The printed tags ascend by sort key, and array indices that compare as equal come first, by number. */
  lemma ArrangedAscends(c: Collation, tags: seq<Tag>, i: nat, j: nat)
    requires i < j < |tags|
    ensures var t, u := Arranged(c, tags)[i], Arranged(c, tags)[j];
            && StrLe(c(t.0), c(u.0))
            && (c(t.0) == c(u.0) && IsIndex(u.0) ==> IsIndex(t.0) && Number(t.0) <= Number(u.0))
  {
    ArrangedInOrder(c, tags);
    var t, u := Arranged(c, tags)[i], Arranged(c, tags)[j];
    assert ByKeyThenRank(c)(t, u);
  }

  /** Different tags differ in their sort keys, or one of them at least is an array index. */
  ghost predicate NoTies(c: Collation, tags: multiset<Tag>) {
    forall t, u :: t in tags && u in tags && c(t.0) == c(u.0) && Rank(t.0) == Rank(u.0) ==> t == u
  }

  // ---- Printing and parsing ---------------------------------------------------------

  function Print(t: Tag): string {
    t.0 + "=" + t.1
  }

  function PrintAll(tags: seq<Tag>): (parts: seq<string>)
    ensures |parts| == |tags|
    ensures forall i :: 0 <= i < |tags| ==> parts[i] == Print(tags[i])
  {
    if tags == [] then [] else [Print(tags[0])] + PrintAll(tags[1..])
  }

  /** `keyFor` */
  function KeyFor(c: Collation, name: string, tags: seq<Tag>): string {
    if tags == [] then name
    else name + "{" + Join(PrintAll(Arranged(c, tags)), ',') + "}"
  }

  /** The labels of the parts that have a nonempty key. */
  function LabelsOf(parts: seq<string>): seq<Tag> {
    if parts == [] then []
    else
      var part := parts[|parts| - 1];
      var eq := IndexOf(part, '=');
      LabelsOf(parts[..|parts| - 1])
      + if eq.None? || eq.value == 0 then [] else [(part[..eq.value], part[eq.value + 1..])]
  }

  function ParsedKey(key: string): (string, seq<Tag>) {
    match IndexOf(key, '{')
    case None => (key, [])
    case Some(brace) =>
      var end := match LastIndexOf(key, '}') case None => -1 case Some(i) => i;
      (key[..brace], LabelsOf(Split(Slice(key, brace + 1, end), ',')))
  }

  method ParseSnapshotKey(key: string) returns (name: string, labels: seq<Tag>)
    ensures (name, labels) == ParsedKey(key)
  {
    var brace := IndexOf(key, '{');
    if brace.None? {
      return key, [];
    }
    name := key[..brace.value];
    var last := LastIndexOf(key, '}');
    var inner := Slice(key, brace.value + 1, if last.None? then -1 else last.value);
    var parts := Split(inner, ',');
    labels := [];
    for i := 0 to |parts|
      invariant labels == LabelsOf(parts[..i])
    {
      assert parts[..i + 1][..i] == parts[..i];
      var eq := IndexOf(parts[i], '=');
      if eq.None? || eq.value == 0 {
        continue;
      }
      labels := labels + [(parts[i][..eq.value], parts[i][eq.value + 1..])];
    }
    assert parts[..|parts|] == parts;
  }

  predicate WellFormed(t: Tag) {
    t.0 != "" && ',' !in t.0 && '=' !in t.0 && ',' !in t.1
  }

  ghost predicate AllWellFormed(tags: seq<Tag>) {
    forall i :: 0 <= i < |tags| ==> WellFormed(tags[i])
  }

  lemma WellFormedInAnyOrder(a: seq<Tag>, b: seq<Tag>)
    requires multiset(a) == multiset(b)
    ensures AllWellFormed(a) <==> AllWellFormed(b)
  {
    hide WellFormed;
    forall i | 0 <= i < |b| ensures b[i] in a {
      assert b[i] in multiset(b);
    }
    forall i | 0 <= i < |a| ensures a[i] in b {
      assert a[i] in multiset(a);
    }
  }

  lemma {:induction false} ParsedLabelsAreWellFormed(parts: seq<string>)
    requires forall p :: p in parts ==> ',' !in p
    ensures AllWellFormed(LabelsOf(parts))
  {
    if parts != [] {
      ParsedLabelsAreWellFormed(parts[..|parts| - 1]);
      assert parts[|parts| - 1] in parts;
    }
  }

  lemma IndexOfFirst(s: string, c: char, n: nat)
    requires n < |s| && s[n] == c && c !in s[..n]
    ensures IndexOf(s, c) == Some(n)
  {
    var i := IndexOf(s, c).value;
    assert i >= n by {
      assert forall k :: 0 <= k < n ==> s[..n][k] == s[k];
    }
    assert forall k :: 0 <= k < i ==> s[..i][k] == s[k];
  }

  /** The first `=` of a printed tag is the one between key and value. */
  lemma PrintedSplits(t: Tag)
    requires WellFormed(t)
    ensures 0 < |t.0| < |Print(t)| && IndexOf(Print(t), '=') == Some(|t.0|)
    ensures Print(t)[..|t.0|] == t.0 && Print(t)[|t.0| + 1..] == t.1
  {
    assert Print(t)[..|t.0|] == t.0;
    IndexOfFirst(Print(t), '=', |t.0|);
  }

  lemma LabelsOfSnoc(parts: seq<string>, part: string, eq: nat)
    requires 0 < eq < |part| && IndexOf(part, '=') == Some(eq)
    ensures LabelsOf(parts + [part]) == LabelsOf(parts) + [(part[..eq], part[eq + 1..])]
  {
    assert (parts + [part])[..|parts|] == parts;
  }

  lemma {:induction false} LabelsOfPrinted(tags: seq<Tag>)
    requires AllWellFormed(tags)
    ensures LabelsOf(PrintAll(tags)) == tags
  {
    if tags == [] {
      assert LabelsOf([]) == [];
    } else {
      var n := |tags| - 1;
      LabelsOfPrinted(tags[..n]);
      LabelsOfOneMore(tags[..n], tags[n]);
      assert tags[..n] + [tags[n]] == tags;
    }
  }

  lemma LabelsOfOneMore(tags: seq<Tag>, t: Tag)
    requires LabelsOf(PrintAll(tags)) == tags && WellFormed(t)
    ensures LabelsOf(PrintAll(tags + [t])) == tags + [t]
  {
    PrintAllSnoc(tags, t);
    PrintedSplits(t);
    LabelsOfSnoc(PrintAll(tags), Print(t), |t.0|);
    hide Print, PrintAll, LabelsOf;
  }

  lemma PrintAllSnoc(tags: seq<Tag>, t: Tag)
    ensures PrintAll(tags + [t]) == PrintAll(tags) + [Print(t)]
  {}

  lemma ParsedPrinted(name: string, inner: string)
    requires '{' !in name
    ensures ParsedKey(name + "{" + inner + "}") == (name, LabelsOf(Split(inner, ',')))
  {
    var key := name + "{" + inner + "}";
    assert key[..|name|] == name;
    IndexOfFirst(key, '{', |name|);
    assert LastIndexOf(key, '}') == Some(|key| - 1);
    assert key[|name| + 1..|key| - 1] == inner;
  }

  /**
   Parsing a printed key gives back the name and the sorted tags exactly when every tag has a
   nonempty key without `,` or `=` and a value without `,`.
   */
  lemma KeyRoundTripIff(c: Collation, name: string, tags: seq<Tag>)
    requires '{' !in name
    ensures ParsedKey(KeyFor(c, name, tags)) == (name, Arranged(c, tags)) <==> AllWellFormed(tags)
  {
    if tags != [] {
      var sorted := Arranged(c, tags);
      var parts := PrintAll(sorted);
      WellFormedInAnyOrder(tags, sorted);
      ParsedPrinted(name, Join(parts, ','));
      ParsedLabelsAreWellFormed(Split(Join(parts, ','), ','));
      if AllWellFormed(sorted) {
        NoCommasPrinted(sorted);
        SplitJoin(parts, ',');
        LabelsOfPrinted(sorted);
      }
      hide ParsedKey, AllWellFormed, LabelsOf, Split, Join;
    }
  }

  lemma NoCommasPrinted(tags: seq<Tag>)
    requires AllWellFormed(tags)
    ensures forall p :: p in PrintAll(tags) ==> ',' !in p
  {
    forall p | p in PrintAll(tags) ensures ',' !in p {
      var i :| 0 <= i < |tags| && PrintAll(tags)[i] == p;
      assert WellFormed(tags[i]);
    }
  }

  /** Without ties the key does not depend on the order in which the tags were written down. */
  lemma KeyIgnoresTagOrder(c: Collation, name: string, a: seq<Tag>, b: seq<Tag>)
    requires multiset(a) == multiset(b) && NoTies(c, multiset(a))
    ensures KeyFor(c, name, a) == KeyFor(c, name, b)
  {
    StrOrders(c);
    ArrangedInOrder(c, a);
    ArrangedInOrder(c, b);
    forall t, u | t in multiset(a) && u in multiset(a) && ByKeyThenRank(c)(t, u) && ByKeyThenRank(c)(u, t)
      ensures t == u
    {
      StrLeAntisymmetric(c(t.0), c(u.0));
    }
    StableSort.AscendingUnique(ByKeyThenRank(c), Arranged(c, a), Arranged(c, b));
  }

  /** The tags that tie with this one. */
  function Ties(c: Collation, t: Tag): Tag -> bool {
    (u: Tag) => c(u.0) == c(t.0) && Rank(u.0) == Rank(t.0)
  }

  /** Of the tags that tie, the one written first is printed first. */
  lemma TieKeepsOrder(c: Collation, t: Tag, rest: seq<Tag>)
    ensures StableSort.First(Ties(c, t), Arranged(c, [t] + rest)) == Some(t)
  {
    StrLeTotal(c(t.0), c(t.0));
    StableSort.SortedKeepsFirst(ByRank(), Ties(c, t), [t] + rest);
    StableSort.SortedKeepsFirst(ByKey(c), Ties(c, t), Entries([t] + rest));
  }

  /** Two tags can be brought to the front. */
  lemma BringForward(tags: seq<Tag>, i: nat, j: nat) returns (rest: seq<Tag>)
    requires i < j < |tags|
    ensures multiset([tags[i], tags[j]] + rest) == multiset([tags[j], tags[i]] + rest) == multiset(tags)
  {
    rest := tags[..i] + tags[i + 1..j] + tags[j + 1..];
    assert tags == tags[..i] + [tags[i]] + tags[i + 1..j] + [tags[j]] + tags[j + 1..];
  }

  lemma TiesShow(c: Collation, name: string, t: Tag, u: Tag, rest: seq<Tag>)
    requires '{' !in name && t != u && c(t.0) == c(u.0) && Rank(t.0) == Rank(u.0)
    requires AllWellFormed([t, u] + rest)
    ensures KeyFor(c, name, [t, u] + rest) != KeyFor(c, name, [u, t] + rest)
  {
    var a, b := [t, u] + rest, [u, t] + rest;
    assert multiset(a) == multiset(b);
    WellFormedInAnyOrder(a, b);
    assert a == [t] + ([u] + rest) && b == [u] + ([t] + rest);
    KeyRoundTripIff(c, name, a);
    KeyRoundTripIff(c, name, b);
    TieKeepsOrder(c, t, [u] + rest);
    TieKeepsOrder(c, u, [t] + rest);
    assert Ties(c, t) == Ties(c, u);
    hide *;
  }

  /** The key is independent of the order in which the tags were written exactly when none tie. */
  lemma KeyIgnoresTagOrderIff(c: Collation, name: string, tags: seq<Tag>)
    requires '{' !in name && AllWellFormed(tags)
    ensures (forall other :: multiset(other) == multiset(tags) ==> KeyFor(c, name, other) == KeyFor(c, name, tags))
            <==> NoTies(c, multiset(tags))
  {
    hide KeyFor, AllWellFormed, NoTies;
    if NoTies(c, multiset(tags)) {
      forall other | multiset(other) == multiset(tags) ensures KeyFor(c, name, other) == KeyFor(c, name, tags) {
        KeyIgnoresTagOrder(c, name, tags, other);
      }
    } else {
      var t, u, rest := TieInFront(c, tags);
      WellFormedInAnyOrder(tags, [t, u] + rest);
      TiesShow(c, name, t, u, rest);
    }
  }

  lemma TieInFront(c: Collation, tags: seq<Tag>) returns (t: Tag, u: Tag, rest: seq<Tag>)
    requires !NoTies(c, multiset(tags))
    ensures t != u && c(t.0) == c(u.0) && Rank(t.0) == Rank(u.0)
    ensures multiset([t, u] + rest) == multiset(tags) && multiset([u, t] + rest) == multiset(tags)
  {
    hide NoTies;
    t, u := FindTie(c, tags);
    var i :| 0 <= i < |tags| && tags[i] == t;
    var j :| 0 <= j < |tags| && tags[j] == u;
    if i < j {
      rest := BringForward(tags, i, j);
    } else {
      rest := BringForward(tags, j, i);
    }
  }

  lemma FindTie(c: Collation, tags: seq<Tag>) returns (t: Tag, u: Tag)
    requires !NoTies(c, multiset(tags))
    ensures t in tags && u in tags && t != u && c(t.0) == c(u.0) && Rank(t.0) == Rank(u.0)
  {
    t, u :| t in multiset(tags) && u in multiset(tags) && c(t.0) == c(u.0) && Rank(t.0) == Rank(u.0)
            && t != u;
  }

  /** Two metrics share a key only if they are the same metric with the same tags. */
  lemma KeyIsInjective(c: Collation, n1: string, t1: seq<Tag>, n2: string, t2: seq<Tag>)
    requires '{' !in n1 && '{' !in n2
    requires AllWellFormed(t1) && AllWellFormed(t2)
    requires KeyFor(c, n1, t1) == KeyFor(c, n2, t2)
    ensures n1 == n2 && multiset(t1) == multiset(t2)
  {
    KeyRoundTripIff(c, n1, t1);
    KeyRoundTripIff(c, n2, t2);
    assert multiset(Arranged(c, t1)) == multiset(Arranged(c, t2));
  }
}
