/** Canonical printing used as equality: object entries are sorted by a key comparator before they
    are printed. Whether that decides equality depends exactly on the comparator.
 */
module CanonicalJson {
  import opened JsonText

  /** `le(a, b)` says that the comparator puts `a` no later than `b`. */
  type KeyOrder = (Text, Text) -> bool

  ghost predicate TotalPreorder(le: KeyOrder)
  {
    && (forall a, b :: le(a, b) || le(b, a))
    && (forall a, b, c :: le(a, b) && le(b, c) ==> le(a, c))
  }

  /** No two different keys compare as equal. */
  ghost predicate Separates(le: KeyOrder)
  {
    forall a, b :: le(a, b) && le(b, a) ==> a == b
  }

  // ---------------------------------------------------------------------------------------------
  // Stable sorting by key
  // ---------------------------------------------------------------------------------------------

  function Insert<T>(le: KeyOrder, e: Entry<T>, s: seq<Entry<T>>): seq<Entry<T>>
  {
    if s == [] || le(e.key, s[0].key) then [e] + s else [s[0]] + Insert(le, e, s[1..])
  }

  function SortEntries<T>(le: KeyOrder, s: seq<Entry<T>>): seq<Entry<T>>
  {
    if s == [] then [] else Insert(le, s[0], SortEntries(le, s[1..]))
  }

  ghost predicate Ordered<T>(le: KeyOrder, s: seq<Entry<T>>)
  {
    forall i, j :: 0 <= i < j < |s| ==> le(s[i].key, s[j].key)
  }

  lemma {:induction false} InsertHasElements<T>(le: KeyOrder, e: Entry<T>, s: seq<Entry<T>>)
    ensures multiset(Insert(le, e, s)) == multiset([e] + s)
    decreases |s|
  {
    if s != [] && !le(e.key, s[0].key) {
      InsertHasElements(le, e, s[1..]);
      assert s == [s[0]] + s[1..];
    }
  }

  lemma {:induction false} SortHasElements<T>(le: KeyOrder, s: seq<Entry<T>>)
    ensures multiset(SortEntries(le, s)) == multiset(s)
    decreases |s|
  {
    if s != [] {
      SortHasElements(le, s[1..]);
      InsertHasElements(le, s[0], SortEntries(le, s[1..]));
      assert s == [s[0]] + s[1..];
    }
  }

  lemma {:induction false} InsertIsOrdered<T>(le: KeyOrder, e: Entry<T>, s: seq<Entry<T>>)
    requires TotalPreorder(le) && Ordered(le, s)
    ensures Ordered(le, Insert(le, e, s))
    decreases |s|
  {
    if s != [] && !le(e.key, s[0].key) {
      InsertIsOrdered(le, e, s[1..]);
      InsertHasElements(le, e, s[1..]);
      var r := Insert(le, e, s[1..]);
      forall k | 0 <= k < |r| ensures le(s[0].key, r[k].key) {
        assert r[k] in multiset([e] + s[1..]);
        if r[k] != e {
          var j :| 0 <= j < |s[1..]| && s[1..][j] == r[k];
          assert s[j + 1] == r[k];
        }
      }
    }
  }

  lemma {:induction false} SortIsOrdered<T>(le: KeyOrder, s: seq<Entry<T>>)
    requires TotalPreorder(le)
    ensures Ordered(le, SortEntries(le, s))
    decreases |s|
  {
    if s != [] {
      SortIsOrdered(le, s[1..]);
      InsertIsOrdered(le, s[0], SortEntries(le, s[1..]));
    }
  }

  lemma SortKeepsElements<T>(le: KeyOrder, s: seq<Entry<T>>, e: Entry<T>)
    ensures e in SortEntries(le, s) <==> e in s
  {
    SortHasElements(le, s);
    assert e in SortEntries(le, s) <==> e in multiset(SortEntries(le, s));
    assert e in s <==> e in multiset(s);
  }

  lemma {:induction false} InsertKeepsDistinct<T>(le: KeyOrder, e: Entry<T>, s: seq<Entry<T>>)
    requires DistinctKeys([e] + s)
    ensures DistinctKeys(Insert(le, e, s))
    decreases |s|
  {
    var t := [e] + s;
    if s != [] && !le(e.key, s[0].key) {
      var u, r := [e] + s[1..], Insert(le, e, s[1..]);
      forall i, j | 0 <= i < j < |u| ensures u[i].key != u[j].key {
        assert u[j] == t[j + 1] && u[i] == t[if i == 0 then 0 else i + 1];
      }
      InsertKeepsDistinct(le, e, s[1..]);
      InsertHasElements(le, e, s[1..]);
      forall k | 0 <= k < |r| ensures r[k].key != s[0].key {
        assert r[k] in multiset(u);
        var i :| 0 <= i < |u| && u[i] == r[k];
        assert t[1] == s[0] && u[i] == t[if i == 0 then 0 else i + 1];
      }
    }
  }

  lemma {:induction false} SortKeepsDistinct<T>(le: KeyOrder, s: seq<Entry<T>>)
    requires DistinctKeys(s)
    ensures DistinctKeys(SortEntries(le, s))
    decreases |s|
  {
    if s != [] {
      var r := SortEntries(le, s[1..]);
      assert forall i, j :: 0 <= i < j < |s[1..]| ==> s[1..][i] == s[i + 1] && s[1..][j] == s[j + 1];
      SortKeepsDistinct(le, s[1..]);
      forall k | 0 <= k < |r| ensures r[k].key != s[0].key {
        SortKeepsElements(le, s[1..], r[k]);
        var i :| 0 <= i < |s[1..]| && s[1..][i] == r[k];
        assert s[i + 1] == r[k];
      }
      InsertKeepsDistinct(le, s[0], r);
    }
  }

  /** No two different keys of one object compare as equal. */
  predicate UntiedKeys<T>(le: KeyOrder, s: seq<Entry<T>>)
  {
    forall i, j :: 0 <= i < |s| && 0 <= j < |s| && le(s[i].key, s[j].key) && le(s[j].key, s[i].key) ==>
      s[i].key == s[j].key
  }

  /** Two ordered arrangements of the same entries coincide when the order ties none of their keys. */
  lemma {:induction false} OrderedIsUnique<T>(le: KeyOrder, a: seq<Entry<T>>, b: seq<Entry<T>>)
    requires UntiedKeys(le, a) && Ordered(le, a) && Ordered(le, b)
    requires DistinctKeys(a) && DistinctKeys(b)
    requires forall e :: e in a <==> e in b
    ensures a == b
    decreases |a|
  {
    assert |b| > 0 ==> b[0] in b;
    if a != [] {
      assert a[0] in b;
      assert b[0] in a;
      var i :| 0 <= i < |b| && b[i] == a[0];
      var j :| 0 <= j < |a| && a[j] == b[0];
      FirstIsLeast(le, b, i);
      FirstIsLeast(le, a, j);
      assert a[0] == b[0];
      assert forall k :: 0 <= k < |a[1..]| ==> a[1..][k] == a[k + 1];
      forall e
        ensures e in a[1..] <==> e in b[1..]
      {
        RestHasOthers(a, e);
        RestHasOthers(b, e);
      }
      OrderedIsUnique(le, a[1..], b[1..]);
      assert a == [a[0]] + a[1..] && b == [b[0]] + b[1..];
    }
  }

  lemma FirstIsLeast<T>(le: KeyOrder, s: seq<Entry<T>>, i: nat)
    requires Ordered(le, s) && i < |s|
    ensures i == 0 || le(s[0].key, s[i].key)
  {
  }

  lemma RestHasOthers<T>(s: seq<Entry<T>>, e: Entry<T>)
    requires s != [] && DistinctKeys(s)
    ensures e in s[1..] <==> e in s && e != s[0]
  {
    if e in s && e != s[0] {
      var i :| 0 <= i < |s| && s[i] == e;
      assert s[1..][i - 1] == e;
    }
    if e in s[1..] {
      var i :| 0 <= i < |s[1..]| && s[1..][i] == e;
      assert s[i + 1] == e;
    }
  }

  // ---------------------------------------------------------------------------------------------
  // Keys that look like array indices
  // ---------------------------------------------------------------------------------------------

  /** Code-unit order, the default order of `Array.prototype.sort` on strings. */
  predicate TextLe(a: Text, b: Text)
  {
    a == [] || (b != [] && (a[0] < b[0] || (a[0] == b[0] && TextLe(a[1..], b[1..]))))
  }

  const MAX_INDEX_TEXT: Text := [0x34, 0x32, 0x39, 0x34, 0x39, 0x36, 0x37, 0x32, 0x39, 0x34]

  /** Canonical decimal texts below 2^32 - 1: objects enumerate such keys first, in numeric order. */
  predicate IsIndexKey(k: Text)
  {
    && k != [] && (forall i :: 0 <= i < |k| ==> IsDigit(k[i]))
    && (|k| > 1 ==> k[0] != 0x30)
    && (|k| < 10 || (|k| == 10 && TextLe(k, MAX_INDEX_TEXT)))
  }

  /** Numeric order of canonical decimals: shorter first, then digit by digit. */
  predicate IndexLe(a: Text, b: Text)
  {
    |a| < |b| || (|a| == |b| && TextLe(a, b))
  }

  /** The order in which an object with sorted keys enumerates them. */
  predicate OwnKeyLe(a: Text, b: Text)
  {
    if IsIndexKey(a) && IsIndexKey(b) then IndexLe(a, b)
    else if IsIndexKey(a) || IsIndexKey(b) then IsIndexKey(a)
    else TextLe(a, b)
  }

  lemma {:induction false} TextLeIsTotal(a: Text, b: Text)
    ensures TextLe(a, b) || TextLe(b, a)
    ensures TextLe(a, b) && TextLe(b, a) ==> a == b
    decreases |a|
  {
    if a != [] && b != [] && a[0] == b[0] {
      TextLeIsTotal(a[1..], b[1..]);
      assert a == [a[0]] + a[1..] && b == [b[0]] + b[1..];
    }
  }

  lemma {:induction false} TextLeIsTransitive(a: Text, b: Text, c: Text)
    requires TextLe(a, b) && TextLe(b, c)
    ensures TextLe(a, c)
    decreases |a|
  {
    if a != [] && b != [] && c != [] && a[0] == b[0] == c[0] {
      TextLeIsTransitive(a[1..], b[1..], c[1..]);
    }
  }

  lemma OwnKeyLeIsTotalOrder()
    ensures TotalPreorder(OwnKeyLe) && Separates(OwnKeyLe)
  {
    forall a, b
      ensures OwnKeyLe(a, b) || OwnKeyLe(b, a)
      ensures OwnKeyLe(a, b) && OwnKeyLe(b, a) ==> a == b
    {
      TextLeIsTotal(a, b);
    }
    forall a, b, c | OwnKeyLe(a, b) && OwnKeyLe(b, c)
      ensures OwnKeyLe(a, c)
    {
      if TextLe(a, b) && TextLe(b, c) {
        TextLeIsTransitive(a, b, c);
      }
    }
  }

  /** An object lists its index keys first, in numeric order, and then its other keys. */
  predicate KeysEnumerate<T>(s: seq<Entry<T>>)
  {
    forall i, j :: 0 <= i < j < |s| && IsIndexKey(s[j].key) ==> IsIndexKey(s[i].key) && IndexLe(s[i].key, s[j].key)
  }

  predicate Enumerable(v: Json)
  {
    match v
    case Arr(items) => forall i :: 0 <= i < |items| ==> Enumerable(items[i])
    case Obj(f) => KeysEnumerate(f) && forall i :: 0 <= i < |f| ==> Enumerable(f[i].value)
    case _ => true
  }

  /** A value as the program holds it: objects have distinct keys, in their own enumeration order. */
  ghost predicate Proper(v: Json)
  {
    Valid(v) && Enumerable(v)
  }

  /** What enumeration order says of two keys by itself: nothing if neither is an index key. */
  predicate EnumeratedLe(a: Text, b: Text)
  {
    (!IsIndexKey(a) && !IsIndexKey(b)) || OwnKeyLe(a, b)
  }

  /** The comparator with the ties broken that enumeration order breaks. */
  function Refined(le: KeyOrder): KeyOrder
  {
    (a: Text, b: Text) => le(a, b) && (le(b, a) ==> EnumeratedLe(a, b))
  }

  lemma EnumeratedLeIsPreorder(a: Text, b: Text, c: Text)
    ensures EnumeratedLe(a, b) || EnumeratedLe(b, a)
    ensures EnumeratedLe(a, b) && EnumeratedLe(b, c) ==> EnumeratedLe(a, c)
  {
    OwnKeyLeIsTotalOrder();
  }

  lemma RefinedIsPreorder(le: KeyOrder)
    requires TotalPreorder(le)
    ensures TotalPreorder(Refined(le))
  {
    var finer := Refined(le);
    forall a, b ensures finer(a, b) || finer(b, a) {
      EnumeratedLeIsPreorder(a, b, a);
    }
    forall a, b, c | finer(a, b) && finer(b, c) ensures finer(a, c) {
      EnumeratedLeIsPreorder(a, b, c);
    }
  }

  // ---------------------------------------------------------------------------------------------
  // The canonical printer and the canonical value
  // ---------------------------------------------------------------------------------------------

  /** The printer of the assertion module: entries are sorted by the comparator, then joined. */
  function Comparable(le: KeyOrder, v: Json): Text
    decreases v, 1
  {
    match v
    case Arr(items) => [LBRACKET] + ComparableItems(le, items) + [RBRACKET]
    case Obj(fields) => [LBRACE] + JoinEntries(SortEntries(le, ComparableEntries(le, fields))) + [RBRACE]
    case _ => Print(v)
  }

  function ComparableItems(le: KeyOrder, items: seq<Json>): Text
    decreases items, 0
  {
    if items == [] then []
    else if |items| == 1 then Comparable(le, items[0])
    else Comparable(le, items[0]) + [COMMA] + ComparableItems(le, items[1..])
  }

  function ComparableEntries(le: KeyOrder, fields: seq<Entry<Json>>): (r: seq<Entry<Text>>)
    ensures |r| == |fields|
    decreases fields, 0
  {
    if fields == [] then []
    else [Entry(fields[0].key, Comparable(le, fields[0].value))] + ComparableEntries(le, fields[1..])
  }

  function JoinEntry(e: Entry<Text>): Text
  {
    Quote(e.key) + [COLON] + e.value
  }

  function JoinEntries(s: seq<Entry<Text>>): Text
  {
    if s == [] then []
    else if |s| == 1 then JoinEntry(s[0])
    else JoinEntry(s[0]) + [COMMA] + JoinEntries(s[1..])
  }

  /** The value with the entries of every object sorted by the comparator. */
  function SortDeep(le: KeyOrder, v: Json): Json
    decreases v, 1
  {
    match v
    case Arr(items) => Arr(SortItems(le, items))
    case Obj(fields) => Obj(SortEntries(le, SortValues(le, fields)))
    case _ => v
  }

  function SortItems(le: KeyOrder, items: seq<Json>): (r: seq<Json>)
    ensures |r| == |items|
    ensures forall i :: 0 <= i < |items| ==> r[i] == SortDeep(le, items[i])
    decreases items, 0
  {
    if items == [] then [] else [SortDeep(le, items[0])] + SortItems(le, items[1..])
  }

  function SortValues(le: KeyOrder, fields: seq<Entry<Json>>): (r: seq<Entry<Json>>)
    ensures |r| == |fields|
    ensures forall i :: 0 <= i < |fields| ==> r[i] == Entry(fields[i].key, SortDeep(le, fields[i].value))
    decreases fields, 0
  {
    if fields == [] then []
    else [Entry(fields[0].key, SortDeep(le, fields[0].value))] + SortValues(le, fields[1..])
  }

  function PrintEntries(fields: seq<Entry<Json>>): (r: seq<Entry<Text>>)
    ensures |r| == |fields|
  {
    if fields == [] then [] else [Entry(fields[0].key, Print(fields[0].value))] + PrintEntries(fields[1..])
  }

  lemma {:induction false} JoinPrinted(fields: seq<Entry<Json>>)
    ensures JoinEntries(PrintEntries(fields)) == PrintFields(fields)
    decreases |fields|
  {
    if fields != [] {
      JoinPrinted(fields[1..]);
    }
  }

  lemma {:induction false} InsertCommutesWithPrint(le: KeyOrder, f: Entry<Json>, s: seq<Entry<Json>>)
    ensures Insert(le, Entry(f.key, Print(f.value)), PrintEntries(s)) == PrintEntries(Insert(le, f, s))
    decreases |s|
  {
    if s != [] && !le(f.key, s[0].key) {
      InsertCommutesWithPrint(le, f, s[1..]);
      assert ([s[0]] + Insert(le, f, s[1..]))[1..] == Insert(le, f, s[1..]);
    } else {
      assert ([f] + s)[1..] == s;
    }
  }

  lemma {:induction false} SortCommutesWithPrint(le: KeyOrder, s: seq<Entry<Json>>)
    ensures SortEntries(le, PrintEntries(s)) == PrintEntries(SortEntries(le, s))
    decreases |s|
  {
    if s != [] {
      SortCommutesWithPrint(le, s[1..]);
      InsertCommutesWithPrint(le, s[0], SortEntries(le, s[1..]));
      assert PrintEntries(s)[1..] == PrintEntries(s[1..]);
    }
  }

  /** The canonical text is the plain text of the sorted value. */
  lemma {:induction false} ComparablePrintsSorted(le: KeyOrder, v: Json)
    ensures Comparable(le, v) == Print(SortDeep(le, v))
    decreases v, 1
  {
    match v
    case Arr(items) => ItemsPrintSorted(le, items);
    case Obj(fields) =>
      EntriesPrintSorted(le, fields);
      SortCommutesWithPrint(le, SortValues(le, fields));
      JoinPrinted(SortEntries(le, SortValues(le, fields)));
    case _ =>
  }

  lemma {:induction false} ItemsPrintSorted(le: KeyOrder, items: seq<Json>)
    ensures ComparableItems(le, items) == PrintItems(SortItems(le, items))
    decreases items, 0
  {
    if items != [] {
      ComparablePrintsSorted(le, items[0]);
      ItemsPrintSorted(le, items[1..]);
      assert SortItems(le, items)[1..] == SortItems(le, items[1..]);
    }
  }

  lemma {:induction false} EntriesPrintSorted(le: KeyOrder, fields: seq<Entry<Json>>)
    ensures ComparableEntries(le, fields) == PrintEntries(SortValues(le, fields))
    decreases fields, 0
  {
    if fields != [] {
      ComparablePrintsSorted(le, fields[0].value);
      EntriesPrintSorted(le, fields[1..]);
      assert SortValues(le, fields)[1..] == SortValues(le, fields[1..]);
    }
  }

  lemma {:induction false} SortDeepIsValid(le: KeyOrder, v: Json)
    requires Valid(v)
    ensures Valid(SortDeep(le, v))
    decreases v
  {
    match v
    case Arr(items) =>
      forall i | 0 <= i < |items| ensures Valid(SortItems(le, items)[i]) {
        SortDeepIsValid(le, items[i]);
      }
    case Obj(fields) =>
      var s := SortValues(le, fields);
      var r := SortEntries(le, s);
      SortKeepsDistinct(le, s);
      forall i | 0 <= i < |r| ensures Valid(r[i].value) {
        SortKeepsElements(le, s, r[i]);
        var j :| 0 <= j < |s| && s[j] == r[i];
        SortDeepIsValid(le, fields[j].value);
      }
    case _ =>
  }

  // ---------------------------------------------------------------------------------------------
  // Equality up to key order
  // ---------------------------------------------------------------------------------------------

  /** Structural equality that ignores the order of object entries. */
  ghost predicate Equal(x: Json, y: Json)
    decreases x, 0
  {
    match (x, y)
    case (Arr(a), Arr(b)) => |a| == |b| && forall i :: 0 <= i < |a| ==> Equal(a[i], b[i])
    case (Obj(f), Obj(g)) =>
      && (forall i :: 0 <= i < |f| ==> HasPartner(f[i], g))
      && (forall j :: 0 <= j < |g| ==> IsPartnerOf(f, g[j]))
    case _ => x == y
  }

  ghost predicate EqualEntries(e: Entry<Json>, d: Entry<Json>)
    decreases e, 0
  {
    e.key == d.key && Equal(e.value, d.value)
  }

  ghost predicate HasPartner(e: Entry<Json>, g: seq<Entry<Json>>)
    decreases e, 1
  {
    exists j :: 0 <= j < |g| && EqualEntries(e, g[j])
  }

  ghost predicate IsPartnerOf(f: seq<Entry<Json>>, d: Entry<Json>)
    decreases f, 0
  {
    exists i :: 0 <= i < |f| && EqualEntries(f[i], d)
  }

  lemma {:induction false} SameSortedIsEqual(le: KeyOrder, x: Json, y: Json)
    requires SortDeep(le, x) == SortDeep(le, y)
    ensures Equal(x, y)
    decreases x, 1
  {
    match (x, y)
    case (Arr(a), Arr(b)) =>
      forall i | 0 <= i < |a| ensures Equal(a[i], b[i]) {
        assert SortItems(le, a)[i] == SortItems(le, b)[i];
        SameSortedIsEqual(le, a[i], b[i]);
      }
    case (Obj(f), Obj(g)) =>
      forall i | 0 <= i < |f| ensures HasPartner(f[i], g) {
        SameSortedHasPartner(le, f, g, i);
      }
      forall j | 0 <= j < |g| ensures IsPartnerOf(f, g[j]) {
        SameSortedIsPartner(le, f, g, j);
      }
    case _ =>
  }

  lemma {:induction false} SameSortedHasPartner(le: KeyOrder, f: seq<Entry<Json>>, g: seq<Entry<Json>>, i: nat)
    requires SortEntries(le, SortValues(le, f)) == SortEntries(le, SortValues(le, g)) && i < |f|
    ensures HasPartner(f[i], g)
    decreases f, 0
  {
    var s, t := SortValues(le, f), SortValues(le, g);
    SortKeepsElements(le, s, s[i]);
    SortKeepsElements(le, t, s[i]);
    var j :| 0 <= j < |t| && t[j] == s[i];
    SameSortedIsEqual(le, f[i].value, g[j].value);
    assert EqualEntries(f[i], g[j]);
  }

  lemma {:induction false} SameSortedIsPartner(le: KeyOrder, f: seq<Entry<Json>>, g: seq<Entry<Json>>, j: nat)
    requires SortEntries(le, SortValues(le, f)) == SortEntries(le, SortValues(le, g)) && j < |g|
    ensures IsPartnerOf(f, g[j])
    decreases f, 0
  {
    var s, t := SortValues(le, f), SortValues(le, g);
    SortKeepsElements(le, s, t[j]);
    SortKeepsElements(le, t, t[j]);
    var i :| 0 <= i < |s| && s[i] == t[j];
    SameSortedIsEqual(le, f[i].value, g[j].value);
    assert EqualEntries(f[i], g[j]);
  }

  /** No object inside the value has two different keys that the comparator ties. */
  predicate Untied(le: KeyOrder, x: Json)
  {
    match x
    case Arr(items) => forall i :: 0 <= i < |items| ==> Untied(le, items[i])
    case Obj(f) => UntiedKeys(le, f) && forall i :: 0 <= i < |f| ==> Untied(le, f[i].value)
    case _ => true
  }

  lemma {:induction false} EqualIsSameSorted(le: KeyOrder, x: Json, y: Json)
    requires TotalPreorder(le) && Untied(le, x) && Valid(x) && Valid(y) && Equal(x, y)
    ensures SortDeep(le, x) == SortDeep(le, y)
    decreases x, 1
  {
    match (x, y)
    case (Arr(a), Arr(b)) =>
      forall i | 0 <= i < |a| ensures SortItems(le, a)[i] == SortItems(le, b)[i] {
        EqualIsSameSorted(le, a[i], b[i]);
      }
      assert SortItems(le, a) == SortItems(le, b);
    case (Obj(f), Obj(g)) =>
      var s, t := SortValues(le, f), SortValues(le, g);
      forall i | 0 <= i < |f| ensures s[i] in t {
        PartnerIsSorted(le, f, g, i);
      }
      forall j | 0 <= j < |g| ensures t[j] in s {
        PartnerOfIsSorted(le, f, g, j);
      }
      SortedArrangementsAgree(le, s, t);
    case _ =>
  }

  lemma {:induction false} PartnerIsSorted(le: KeyOrder, f: seq<Entry<Json>>, g: seq<Entry<Json>>, i: nat)
    requires TotalPreorder(le) && Untied(le, Obj(f)) && Valid(Obj(f)) && Valid(Obj(g))
    requires i < |f| && HasPartner(f[i], g)
    ensures SortValues(le, f)[i] in SortValues(le, g)
    decreases f, 0
  {
    var j :| 0 <= j < |g| && EqualEntries(f[i], g[j]);
    EqualIsSameSorted(le, f[i].value, g[j].value);
    assert SortValues(le, f)[i] == SortValues(le, g)[j];
  }

  lemma {:induction false} PartnerOfIsSorted(le: KeyOrder, f: seq<Entry<Json>>, g: seq<Entry<Json>>, j: nat)
    requires TotalPreorder(le) && Untied(le, Obj(f)) && Valid(Obj(f)) && Valid(Obj(g))
    requires j < |g| && IsPartnerOf(f, g[j])
    ensures SortValues(le, g)[j] in SortValues(le, f)
    decreases f, 0
  {
    var i :| 0 <= i < |f| && EqualEntries(f[i], g[j]);
    EqualIsSameSorted(le, f[i].value, g[j].value);
    assert SortValues(le, g)[j] == SortValues(le, f)[i];
  }

  lemma SortedArrangementsAgree<T>(le: KeyOrder, s: seq<Entry<T>>, t: seq<Entry<T>>)
    requires TotalPreorder(le) && UntiedKeys(le, s) && DistinctKeys(s) && DistinctKeys(t)
    requires forall e :: e in s <==> e in t
    ensures SortEntries(le, s) == SortEntries(le, t)
  {
    SortIsOrdered(le, s);
    SortIsOrdered(le, t);
    SortKeepsDistinct(le, s);
    SortKeepsDistinct(le, t);
    forall e ensures e in SortEntries(le, s) <==> e in SortEntries(le, t) {
      SortKeepsElements(le, s, e);
      SortKeepsElements(le, t, e);
    }
    forall e | e in SortEntries(le, s) ensures e in s {
      SortKeepsElements(le, s, e);
    }
    UntiedKeysOfMembers(le, s, SortEntries(le, s));
    OrderedIsUnique(le, SortEntries(le, s), SortEntries(le, t));
  }

  lemma UntiedKeysOfMembers<T>(le: KeyOrder, s: seq<Entry<T>>, r: seq<Entry<T>>)
    requires UntiedKeys(le, s) && forall e :: e in r ==> e in s
    ensures UntiedKeys(le, r)
  {
    forall i, j | 0 <= i < |r| && 0 <= j < |r| && le(r[i].key, r[j].key) && le(r[j].key, r[i].key)
      ensures r[i].key == r[j].key
    {
      assert r[i] in s && r[j] in s;
      var k :| 0 <= k < |s| && s[k] == r[i];
      var l :| 0 <= l < |s| && s[l] == r[j];
    }
  }

  lemma UntiedTextsDecide(le: KeyOrder, x: Json, y: Json)
    requires TotalPreorder(le) && Untied(le, x) && Valid(x) && Valid(y)
    ensures Comparable(le, x) == Comparable(le, y) <==> Equal(x, y)
  {
    ComparablePrintsSorted(le, x);
    ComparablePrintsSorted(le, y);
    if Equal(x, y) {
      EqualIsSameSorted(le, x, y);
    }
    if Comparable(le, x) == Comparable(le, y) {
      ComparableIsSound(le, x, y);
    }
  }

  // ---------------------------------------------------------------------------------------------
  // Ties that enumeration order breaks
  // ---------------------------------------------------------------------------------------------

  /** Sorting is stable, so entries in enumeration order are sorted as by the refined comparator. */
  lemma {:induction false} InsertRefines<T>(le: KeyOrder, e: Entry<T>, s: seq<Entry<T>>)
    requires forall k :: 0 <= k < |s| ==> EnumeratedLe(e.key, s[k].key)
    ensures Insert(Refined(le), e, s) == Insert(le, e, s)
    decreases |s|
  {
    if s != [] && !le(e.key, s[0].key) {
      InsertRefines(le, e, s[1..]);
    }
  }

  lemma {:induction false} SortRefines<T>(le: KeyOrder, s: seq<Entry<T>>)
    requires KeysEnumerate(s)
    ensures SortEntries(Refined(le), s) == SortEntries(le, s)
    decreases |s|
  {
    if s != [] {
      var r := SortEntries(le, s[1..]);
      assert forall i :: 0 <= i < |s[1..]| ==> s[1..][i] == s[i + 1];
      SortRefines(le, s[1..]);
      forall k | 0 <= k < |r| ensures EnumeratedLe(s[0].key, r[k].key) {
        SortKeepsElements(le, s[1..], r[k]);
        var i :| 0 <= i < |s[1..]| && s[1..][i] == r[k];
        assert s[i + 1] == r[k];
      }
      InsertRefines(le, s[0], r);
    }
  }

  lemma {:induction false} SortDeepRefines(le: KeyOrder, v: Json)
    requires Enumerable(v)
    ensures SortDeep(Refined(le), v) == SortDeep(le, v)
    decreases v
  {
    match v
    case Arr(items) =>
      forall i | 0 <= i < |items| ensures SortItems(Refined(le), items)[i] == SortItems(le, items)[i] {
        SortDeepRefines(le, items[i]);
      }
      assert SortItems(Refined(le), items) == SortItems(le, items);
    case Obj(f) =>
      var s, t := SortValues(le, f), SortValues(Refined(le), f);
      forall i | 0 <= i < |f| ensures t[i] == s[i] {
        SortDeepRefines(le, f[i].value);
      }
      assert t == s;
      assert KeysEnumerate(s);
      SortRefines(le, s);
    case _ =>
  }

  /** Two different keys, neither an index key, that compare as equal. */
  predicate TiedNames(le: KeyOrder, a: Text, b: Text)
  {
    a != b && !IsIndexKey(a) && !IsIndexKey(b) && le(a, b) && le(b, a)
  }

  predicate UntiedNames<T>(le: KeyOrder, s: seq<Entry<T>>)
  {
    forall i, j :: 0 <= i < |s| && 0 <= j < |s| ==> !TiedNames(le, s[i].key, s[j].key)
  }

  /** No object inside the value has two different keys that the comparator ties, index keys apart: their
      place in an object is fixed. */
  predicate NoTies(le: KeyOrder, x: Json)
  {
    match x
    case Arr(items) => forall i :: 0 <= i < |items| ==> NoTies(le, items[i])
    case Obj(f) => UntiedNames(le, f) && forall i :: 0 <= i < |f| ==> NoTies(le, f[i].value)
    case _ => true
  }

  lemma RefinedTiesNothing(le: KeyOrder, a: Text, b: Text)
    requires Refined(le)(a, b) && Refined(le)(b, a) && !TiedNames(le, a, b)
    ensures a == b
  {
    assert le(a, b) && le(b, a);
    assert EnumeratedLe(a, b) && EnumeratedLe(b, a);
    TextLeIsTotal(a, b);
    if IsIndexKey(a) || IsIndexKey(b) {
      assert OwnKeyLe(a, b) && OwnKeyLe(b, a);
    }
  }

  lemma UntiedNamesAreUntied<T>(le: KeyOrder, s: seq<Entry<T>>)
    requires UntiedNames(le, s)
    ensures UntiedKeys(Refined(le), s)
  {
    var finer := Refined(le);
    forall i, j | 0 <= i < |s| && 0 <= j < |s| && finer(s[i].key, s[j].key) && finer(s[j].key, s[i].key)
      ensures s[i].key == s[j].key
    {
      RefinedTiesNothing(le, s[i].key, s[j].key);
    }
  }

  lemma {:induction false} NoTiesIsUntied(le: KeyOrder, x: Json)
    requires NoTies(le, x)
    ensures Untied(Refined(le), x)
    decreases x
  {
    match x
    case Arr(items) =>
      forall i | 0 <= i < |items| ensures Untied(Refined(le), items[i]) {
        NoTiesIsUntied(le, items[i]);
      }
    case Obj(f) =>
      forall i | 0 <= i < |f| ensures Untied(Refined(le), f[i].value) {
        NoTiesIsUntied(le, f[i].value);
      }
      UntiedNamesAreUntied(le, f);
    case _ =>
  }

  /** Canonical texts are equal exactly when the values are equal up to key order, provided the comparator
      ties no two keys of one object of the first value. */
  lemma ComparableDecidesEquality(le: KeyOrder, x: Json, y: Json)
    requires TotalPreorder(le) && NoTies(le, x) && Proper(x) && Proper(y)
    ensures Comparable(le, x) == Comparable(le, y) <==> Equal(x, y)
  {
    NoTiesIsUntied(le, x);
    RefinedIsPreorder(le);
    UntiedTextsDecide(Refined(le), x, y);
    SortDeepRefines(le, x);
    SortDeepRefines(le, y);
    ComparablePrintsSorted(le, x);
    ComparablePrintsSorted(le, y);
    ComparablePrintsSorted(Refined(le), x);
    ComparablePrintsSorted(Refined(le), y);
  }

  // ---------------------------------------------------------------------------------------------
  // Ties: values that the printer misjudges
  // ---------------------------------------------------------------------------------------------

  ghost predicate Precedes<T>(s: seq<Entry<T>>, e: Entry<T>, d: Entry<T>)
  {
    exists p, q :: 0 <= p < q < |s| && s[p] == e && s[q] == d
  }

  lemma PrecedesLater<T>(first: Entry<T>, s: seq<Entry<T>>, e: Entry<T>, d: Entry<T>)
    requires Precedes(s, e, d) || (first == e && d in s)
    ensures Precedes([first] + s, e, d)
  {
    var r := [first] + s;
    if Precedes(s, e, d) {
      var p, q :| 0 <= p < q < |s| && s[p] == e && s[q] == d;
      assert r[p + 1] == e && r[q + 1] == d;
    } else {
      var q :| 0 <= q < |s| && s[q] == d;
      assert r[0] == e && r[q + 1] == d;
    }
  }

  lemma {:induction false} InsertKeepsPrecedence<T>(le: KeyOrder, x: Entry<T>, s: seq<Entry<T>>, e: Entry<T>, d: Entry<T>)
    requires Precedes(s, e, d)
    ensures Precedes(Insert(le, x, s), e, d)
    decreases |s|
  {
    if s == [] || le(x.key, s[0].key) {
      PrecedesLater(x, s, e, d);
    } else {
      var p, q :| 0 <= p < q < |s| && s[p] == e && s[q] == d;
      if p > 0 {
        assert s[1..][p - 1] == e && s[1..][q - 1] == d;
        InsertKeepsPrecedence(le, x, s[1..], e, d);
      } else {
        assert s[1..][q - 1] == d;
        InsertHasElements(le, x, s[1..]);
        assert d in multiset([x] + s[1..]);
        assert d in Insert(le, x, s[1..]) by { assert d in multiset(Insert(le, x, s[1..])); }
      }
      PrecedesLater(s[0], Insert(le, x, s[1..]), e, d);
    }
  }

  lemma {:induction false} InsertPrecedes<T>(le: KeyOrder, x: Entry<T>, s: seq<Entry<T>>, d: Entry<T>)
    requires d in s && le(x.key, d.key)
    ensures Precedes(Insert(le, x, s), x, d)
    decreases |s|
  {
    if le(x.key, s[0].key) {
      PrecedesLater(x, s, x, d);
    } else {
      assert s == [s[0]] + s[1..];
      InsertPrecedes(le, x, s[1..], d);
      PrecedesLater(s[0], Insert(le, x, s[1..]), x, d);
    }
  }

  /** The sort is stable: entries that may stay in their order do. */
  lemma {:induction false} SortIsStable<T>(le: KeyOrder, s: seq<Entry<T>>, i: nat, j: nat)
    requires i < j < |s| && le(s[i].key, s[j].key)
    ensures Precedes(SortEntries(le, s), s[i], s[j])
    decreases |s|
  {
    if i == 0 {
      assert s[1..][j - 1] == s[j];
      SortKeepsElements(le, s[1..], s[j]);
      InsertPrecedes(le, s[0], SortEntries(le, s[1..]), s[j]);
    } else {
      SortIsStable(le, s[1..], i - 1, j - 1);
      InsertKeepsPrecedence(le, s[0], SortEntries(le, s[1..]), s[i], s[j]);
    }
  }

  function Swapped(i: nat, j: nat, k: nat): nat
  {
    if k == i then j else if k == j then i else k
  }

  function Swap<T>(s: seq<T>, i: nat, j: nat): (r: seq<T>)
    requires i < |s| && j < |s|
    ensures |r| == |s| && forall k :: 0 <= k < |s| ==> r[k] == s[Swapped(i, j, k)]
  {
    seq(|s|, k requires 0 <= k < |s| => s[Swapped(i, j, k)])
  }

  /** Swapping two entries with tied keys changes the sorted object. */
  lemma SwapShowsInSort<T>(le: KeyOrder, s: seq<Entry<T>>, i: nat, j: nat)
    requires DistinctKeys(s) && i < j < |s| && le(s[i].key, s[j].key) && le(s[j].key, s[i].key)
    ensures SortEntries(le, Swap(s, i, j)) != SortEntries(le, s)
  {
    var t, r := Swap(s, i, j), SortEntries(le, s);
    SortIsStable(le, s, i, j);
    SortIsStable(le, t, i, j);
    SortKeepsDistinct(le, s);
    assert t[i] == s[j] && t[j] == s[i];
    if SortEntries(le, t) == r {
      PrecedenceIsOneWay(r, s[i], s[j]);
    }
  }

  lemma PrecedenceIsOneWay<T>(s: seq<Entry<T>>, e: Entry<T>, d: Entry<T>)
    requires DistinctKeys(s) && Precedes(s, e, d)
    ensures !Precedes(s, d, e)
  {
  }

  lemma {:induction false} EqualIsReflexive(x: Json)
    ensures Equal(x, x)
    decreases x
  {
    match x
    case Arr(items) =>
      forall i | 0 <= i < |items| ensures Equal(items[i], items[i]) {
        EqualIsReflexive(items[i]);
      }
    case Obj(f) =>
      forall i | 0 <= i < |f| ensures HasPartner(f[i], f) && IsPartnerOf(f, f[i]) {
        EqualIsReflexive(f[i].value);
        assert EqualEntries(f[i], f[i]);
      }
    case _ =>
  }

  lemma {:induction false} EqualIsSymmetric(x: Json, y: Json)
    requires Equal(x, y)
    ensures Equal(y, x)
    decreases x, 1
  {
    match (x, y)
    case (Arr(a), Arr(b)) =>
      forall i | 0 <= i < |a| ensures Equal(b[i], a[i]) {
        EqualIsSymmetric(a[i], b[i]);
      }
    case (Obj(f), Obj(g)) =>
      forall j | 0 <= j < |g| ensures HasPartner(g[j], f) {
        PartnerOfIsPartner(f, g[j]);
      }
      forall i | 0 <= i < |f| ensures IsPartnerOf(g, f[i]) {
        PartnerIsPartnerOf(f, i, g);
      }
    case _ =>
  }

  lemma {:induction false} PartnerOfIsPartner(f: seq<Entry<Json>>, d: Entry<Json>)
    requires IsPartnerOf(f, d)
    ensures HasPartner(d, f)
    decreases f, 0
  {
    var i :| 0 <= i < |f| && EqualEntries(f[i], d);
    EqualIsSymmetric(f[i].value, d.value);
    assert EqualEntries(d, f[i]);
  }

  lemma {:induction false} PartnerIsPartnerOf(f: seq<Entry<Json>>, i: nat, g: seq<Entry<Json>>)
    requires i < |f| && HasPartner(f[i], g)
    ensures IsPartnerOf(g, f[i])
    decreases f, 0
  {
    var j :| 0 <= j < |g| && EqualEntries(f[i], g[j]);
    EqualIsSymmetric(f[i].value, g[j].value);
    assert EqualEntries(g[j], f[i]);
  }

  lemma SwappedIsEqual(f: seq<Entry<Json>>, i: nat, j: nat)
    requires i < j < |f|
    ensures Equal(Obj(f), Obj(Swap(f, i, j)))
  {
    var g := Swap(f, i, j);
    forall k | 0 <= k < |f| ensures HasPartner(f[k], g) && IsPartnerOf(f, g[k]) {
      var l := Swapped(i, j, k);
      assert g[l] == f[k] && f[l] == g[k];
      EqualIsReflexive(f[k].value);
      EqualIsReflexive(g[k].value);
      assert EqualEntries(f[k], g[l]) && EqualEntries(f[l], g[k]);
    }
  }

  lemma SwapIsProper(f: seq<Entry<Json>>, i: nat, j: nat)
    requires Proper(Obj(f)) && i < j < |f| && !IsIndexKey(f[i].key) && !IsIndexKey(f[j].key)
    ensures Proper(Obj(Swap(f, i, j)))
  {
    var g := Swap(f, i, j);
    assert KeysEnumerate(g);
    forall k, l | 0 <= k < l < |g| ensures g[k].key != g[l].key {
      assert g[k] == f[Swapped(i, j, k)] && g[l] == f[Swapped(i, j, l)];
    }
  }

  lemma SwapOfValues(le: KeyOrder, f: seq<Entry<Json>>, i: nat, j: nat)
    requires i < j < |f|
    ensures SortValues(le, Swap(f, i, j)) == Swap(SortValues(le, f), i, j)
  {
  }

  lemma SwapSortsApart(le: KeyOrder, f: seq<Entry<Json>>, i: nat, j: nat)
    requires DistinctKeys(f) && i < j < |f| && le(f[i].key, f[j].key) && le(f[j].key, f[i].key)
    ensures SortEntries(le, SortValues(le, Swap(f, i, j))) != SortEntries(le, SortValues(le, f))
  {
    SwapOfValues(le, f, i, j);
    SwapShowsInSort(le, SortValues(le, f), i, j);
  }

  lemma SwappedTieIsMisjudged(le: KeyOrder, f: seq<Entry<Json>>, i: nat, j: nat)
    requires Proper(Obj(f)) && i < j < |f| && TiedNames(le, f[i].key, f[j].key)
    ensures Misjudged(le, Obj(f), Obj(Swap(f, i, j)))
  {
    SwappedIsEqual(f, i, j);
    SwapIsProper(f, i, j);
    SwapSortsApart(le, f, i, j);
  }

  /** Equal values with different sorted forms, hence different texts. */
  ghost predicate Misjudged(le: KeyOrder, x: Json, y: Json)
  {
    Proper(x) && Proper(y) && Equal(x, y) && SortDeep(le, x) != SortDeep(le, y)
  }

  lemma MisjudgedItem(le: KeyOrder, items: seq<Json>, k: nat, y: Json)
    requires Proper(Arr(items)) && k < |items| && Misjudged(le, items[k], y)
    ensures Misjudged(le, Arr(items), Arr(items[k := y]))
  {
    var b := items[k := y];
    forall i | 0 <= i < |items| ensures Equal(items[i], b[i]) && Proper(b[i]) {
      EqualIsReflexive(items[i]);
    }
    assert SortItems(le, items)[k] != SortItems(le, b)[k];
  }

  lemma ReplacedValueIsEqual(f: seq<Entry<Json>>, k: nat, y: Json)
    requires k < |f| && Equal(f[k].value, y)
    ensures Equal(Obj(f), Obj(f[k := Entry(f[k].key, y)]))
  {
    var g := f[k := Entry(f[k].key, y)];
    forall i | 0 <= i < |f| ensures HasPartner(f[i], g) && IsPartnerOf(f, g[i]) {
      EqualIsReflexive(f[i].value);
      assert EqualEntries(f[i], g[i]);
    }
  }

  lemma ReplacedValueIsProper(f: seq<Entry<Json>>, k: nat, y: Json)
    requires Proper(Obj(f)) && k < |f| && Proper(y)
    ensures Proper(Obj(f[k := Entry(f[k].key, y)]))
  {
    var g := f[k := Entry(f[k].key, y)];
    assert KeysEnumerate(g);
    forall i, j | 0 <= i < j < |g| ensures g[i].key != g[j].key {
      assert f[i].key != f[j].key;
    }
  }

  lemma ReplacedValueSortsApart(le: KeyOrder, f: seq<Entry<Json>>, k: nat, y: Json)
    requires DistinctKeys(f) && k < |f| && SortDeep(le, f[k].value) != SortDeep(le, y)
    ensures SortDeep(le, Obj(f)) != SortDeep(le, Obj(f[k := Entry(f[k].key, y)]))
  {
    var g := f[k := Entry(f[k].key, y)];
    var s, t := SortValues(le, f), SortValues(le, g);
    SortKeepsElements(le, s, s[k]);
    SortKeepsElements(le, t, s[k]);
    forall m | 0 <= m < |t| ensures t[m] != s[k] {
      assert t[m] == Entry(g[m].key, SortDeep(le, g[m].value)) && g[m].key == f[m].key;
    }
  }

  lemma MisjudgedEntry(le: KeyOrder, f: seq<Entry<Json>>, k: nat, y: Json)
    requires Proper(Obj(f)) && k < |f| && Misjudged(le, f[k].value, y)
    ensures Misjudged(le, Obj(f), Obj(f[k := Entry(f[k].key, y)]))
  {
    ReplacedValueIsEqual(f, k, y);
    ReplacedValueIsProper(f, k, y);
    ReplacedValueSortsApart(le, f, k, y);
  }

  /** Whatever value has a tie somewhere inside, an equal value prints differently. */
  lemma {:induction false} TiesAreMisjudged(le: KeyOrder, x: Json) returns (y: Json)
    requires Proper(x) && !NoTies(le, x)
    ensures Misjudged(le, x, y)
    decreases x
  {
    match x
    case Arr(items) =>
      var k :| 0 <= k < |items| && !NoTies(le, items[k]);
      var z := TiesAreMisjudged(le, items[k]);
      MisjudgedItem(le, items, k, z);
      y := Arr(items[k := z]);
    case Obj(f) =>
      if UntiedNames(le, f) {
        var k :| 0 <= k < |f| && !NoTies(le, f[k].value);
        var z := TiesAreMisjudged(le, f[k].value);
        MisjudgedEntry(le, f, k, z);
        y := Obj(f[k := Entry(f[k].key, z)]);
      } else {
        var i, j :| 0 <= i < |f| && 0 <= j < |f| && TiedNames(le, f[i].key, f[j].key);
        var lo, hi := if i < j then i else j, if i < j then j else i;
        SwappedTieIsMisjudged(le, f, lo, hi);
        y := Obj(Swap(f, lo, hi));
      }
  }

  ghost predicate DecidesFor(le: KeyOrder, x: Json, y: Json)
  {
    Proper(x) && Proper(y) ==> (Comparable(le, x) == Comparable(le, y) <==> Equal(x, y))
  }

  /** For each single value: the printer tells it apart from exactly the values that differ from it, if
      and only if none of its objects has two keys, neither an index key, that the comparator ties. */
  lemma DecidesExactlyWithoutTies(le: KeyOrder, x: Json)
    requires TotalPreorder(le) && Proper(x)
    ensures (forall y :: DecidesFor(le, x, y)) <==> NoTies(le, x)
  {
    if NoTies(le, x) {
      forall y ensures DecidesFor(le, x, y) {
        if Proper(y) {
          ComparableDecidesEquality(le, x, y);
        }
      }
    } else {
      var y := TiesAreMisjudged(le, x);
      SortDeepIsValid(le, x);
      SortDeepIsValid(le, y);
      ComparablePrintsSorted(le, x);
      ComparablePrintsSorted(le, y);
      if Print(SortDeep(le, x)) == Print(SortDeep(le, y)) {
        PrintIsInjective(SortDeep(le, x), SortDeep(le, y));
      }
      assert !DecidesFor(le, x, y);
    }
  }

  /** Equal canonical texts always mean equal values, even when the comparator ties distinct keys. */
  lemma ComparableIsSound(le: KeyOrder, x: Json, y: Json)
    requires Valid(x) && Valid(y) && Comparable(le, x) == Comparable(le, y)
    ensures Equal(x, y)
  {
    ComparablePrintsSorted(le, x);
    ComparablePrintsSorted(le, y);
    SortDeepIsValid(le, x);
    SortDeepIsValid(le, y);
    PrintIsInjective(SortDeep(le, x), SortDeep(le, y));
    SameSortedIsEqual(le, x, y);
  }

  /** A comparator that ties two keys that are not index keys, as locale collation ties canonically equivalent spellings,
      leaves them in insertion order and tells equal objects apart. */
  lemma TiedKeysBreakEquality(le: KeyOrder, a: Text, b: Text)
    requires TiedNames(le, a, b)
    ensures Proper(Pair(a, b)) && Proper(Pair(b, a)) && Equal(Pair(a, b), Pair(b, a))
    ensures Comparable(le, Pair(a, b)) != Comparable(le, Pair(b, a))
  {
    PairIsProper(a, b);
    PairIsProper(b, a);
    TiedPairsPrintApart(le, a, b);
  }

  lemma TiedPairsPrintApart(le: KeyOrder, a: Text, b: Text)
    requires a != b && le(a, b) && le(b, a)
    ensures Equal(Pair(a, b), Pair(b, a)) && Comparable(le, Pair(a, b)) != Comparable(le, Pair(b, a))
  {
    SwappedPairIsEqual(a, b);
    TiedPairStays(le, a, b);
    TiedPairStays(le, b, a);
    SortedValuesPrintApart(le, Pair(a, b), Pair(b, a));
  }

  lemma PairIsProper(a: Text, b: Text)
    requires a != b && !IsIndexKey(a) && !IsIndexKey(b)
    ensures Proper(Pair(a, b))
  {
    assert KeysEnumerate(Pair(a, b).fields);
  }

  function Pair(a: Text, b: Text): Json
  {
    Obj([Entry(a, Null), Entry(b, Null)])
  }

  lemma SortedValuesPrintApart(le: KeyOrder, x: Json, y: Json)
    requires Valid(x) && Valid(y) && SortDeep(le, x) == x && SortDeep(le, y) == y && x != y
    ensures Comparable(le, x) != Comparable(le, y)
  {
    ComparablePrintsSorted(le, x);
    ComparablePrintsSorted(le, y);
    if Print(x) == Print(y) {
      PrintIsInjective(x, y);
    }
  }

  lemma SwappedPairIsEqual(a: Text, b: Text)
    requires a != b
    ensures Equal(Pair(a, b), Pair(b, a)) && Pair(a, b) != Pair(b, a)
    ensures Valid(Pair(a, b)) && Valid(Pair(b, a))
  {
    var f, g := [Entry(a, Null), Entry(b, Null)], [Entry(b, Null), Entry(a, Null)];
    assert f[0] != g[0];
    assert EqualEntries(f[0], g[1]) && EqualEntries(f[1], g[0]);
    assert HasPartner(f[0], g) && HasPartner(f[1], g) && IsPartnerOf(f, g[0]) && IsPartnerOf(f, g[1]);
  }

  lemma TiedPairStays(le: KeyOrder, a: Text, b: Text)
    requires le(a, b)
    ensures SortDeep(le, Pair(a, b)) == Pair(a, b)
  {
    var f := [Entry(a, Null), Entry(b, Null)];
    assert SortValues(le, f) == f;
    assert f[1..] == [Entry(b, Null)] && SortEntries(le, f[1..]) == f[1..];
  }

  ghost predicate DecidesEquality(le: KeyOrder)
  {
    forall x, y :: DecidesFor(le, x, y)
  }

  /** No two different keys compare as equal, index keys apart. */
  ghost predicate SeparatesNames(le: KeyOrder)
  {
    forall a, b :: !TiedNames(le, a, b)
  }

  lemma {:induction false} SeparatingHasNoTies(le: KeyOrder, x: Json)
    requires SeparatesNames(le)
    ensures NoTies(le, x)
    decreases x
  {
    match x
    case Arr(items) =>
      forall i | 0 <= i < |items| ensures NoTies(le, items[i]) {
        SeparatingHasNoTies(le, items[i]);
      }
    case Obj(f) =>
      forall i | 0 <= i < |f| ensures NoTies(le, f[i].value) {
        SeparatingHasNoTies(le, f[i].value);
      }
    case _ =>
  }

  lemma DecidingComparatorSeparates(le: KeyOrder, a: Text, b: Text)
    requires DecidesEquality(le)
    ensures !TiedNames(le, a, b)
  {
    if TiedNames(le, a, b) {
      assert DecidesFor(le, Pair(a, b), Pair(b, a));
      TiedKeysBreakEquality(le, a, b);
    }
  }

  /** The printer decides equality of all values exactly when its comparator separates distinct keys,
      index keys apart. */
  lemma DecidesEqualityIffSeparating(le: KeyOrder)
    requires TotalPreorder(le)
    ensures DecidesEquality(le) <==> SeparatesNames(le)
  {
    if SeparatesNames(le) {
      forall x, y ensures DecidesFor(le, x, y) {
        if Proper(x) && Proper(y) {
          SeparatingHasNoTies(le, x);
          ComparableDecidesEquality(le, x, y);
        }
      }
    }
    if DecidesEquality(le) {
      forall a, b ensures !TiedNames(le, a, b) {
        DecidingComparatorSeparates(le, a, b);
      }
    }
  }

  lemma {:induction false} SeparatingIsUntied(le: KeyOrder, x: Json)
    requires Separates(le)
    ensures Untied(le, x)
    decreases x
  {
    match x
    case Arr(items) =>
      forall i | 0 <= i < |items| ensures Untied(le, items[i]) {
        SeparatingIsUntied(le, items[i]);
      }
    case Obj(f) =>
      forall i | 0 <= i < |f| ensures Untied(le, f[i].value) {
        SeparatingIsUntied(le, f[i].value);
      }
    case _ =>
  }

  // ---------------------------------------------------------------------------------------------
  // The canonical JSON of the evaluation run store
  // ---------------------------------------------------------------------------------------------

  const NEWLINE: Unit := 10

  /** Canonical text of the run store: the printed sorted value and a newline. */
  function CanonicalJson(v: Json): Text
  {
    Print(SortDeep(OwnKeyLe, v)) + [NEWLINE]
  }

  /** Canonical texts are equal exactly when the values are equal up to key order. */
  lemma CanonicalJsonDecidesEquality(x: Json, y: Json)
    requires Valid(x) && Valid(y)
    ensures CanonicalJson(x) == CanonicalJson(y) <==> Equal(x, y)
  {
    OwnKeyLeIsTotalOrder();
    SeparatingIsUntied(OwnKeyLe, x);
    UntiedTextsDecide(OwnKeyLe, x, y);
    ComparablePrintsSorted(OwnKeyLe, x);
    ComparablePrintsSorted(OwnKeyLe, y);
    var s, t := Print(SortDeep(OwnKeyLe, x)), Print(SortDeep(OwnKeyLe, y));
    assert (s + [NEWLINE])[..|s|] == s && (t + [NEWLINE])[..|t|] == t;
    assert CanonicalJson(x) == CanonicalJson(y) <==> s == t;
  }

  lemma {:induction false} SortingIsIdempotent(le: KeyOrder, v: Json)
    requires TotalPreorder(le) && Separates(le) && Valid(v)
    ensures SortDeep(le, SortDeep(le, v)) == SortDeep(le, v)
  {
    SortDeepIsValid(le, v);
    EqualToSorted(le, v);
    SeparatingIsUntied(le, v);
    EqualIsSameSorted(le, v, SortDeep(le, v));
  }

  /** Sorting the entries of every object does not change the value. */
  lemma {:induction false} EqualToSorted(le: KeyOrder, v: Json)
    ensures Equal(v, SortDeep(le, v))
    decreases v
  {
    match v
    case Arr(items) =>
      forall i | 0 <= i < |items| ensures Equal(items[i], SortItems(le, items)[i]) {
        EqualToSorted(le, items[i]);
      }
    case Obj(f) =>
      var s := SortValues(le, f);
      var g := SortEntries(le, s);
      forall i | 0 <= i < |f| ensures HasPartner(f[i], g) {
        EqualToSorted(le, f[i].value);
        SortKeepsElements(le, s, s[i]);
        var j :| 0 <= j < |g| && g[j] == s[i];
        assert EqualEntries(f[i], g[j]);
      }
      forall j | 0 <= j < |g| ensures IsPartnerOf(f, g[j]) {
        SortKeepsElements(le, s, g[j]);
        var i :| 0 <= i < |s| && s[i] == g[j];
        EqualToSorted(le, f[i].value);
        assert EqualEntries(f[i], g[j]);
      }
    case _ =>
  }

  lemma {:induction false} SortedIsEnumerable(v: Json)
    ensures Enumerable(SortDeep(OwnKeyLe, v))
    decreases v
  {
    match v
    case Arr(items) =>
      forall i | 0 <= i < |items| ensures Enumerable(SortItems(OwnKeyLe, items)[i]) {
        SortedIsEnumerable(items[i]);
      }
    case Obj(f) =>
      var s := SortValues(OwnKeyLe, f);
      var r := SortEntries(OwnKeyLe, s);
      OwnKeyLeIsTotalOrder();
      SortIsOrdered(OwnKeyLe, s);
      assert KeysEnumerate(r);
      forall i | 0 <= i < |r| ensures Enumerable(r[i].value) {
        SortKeepsElements(OwnKeyLe, s, r[i]);
        var j :| 0 <= j < |s| && s[j] == r[i];
        SortedIsEnumerable(f[j].value);
      }
    case _ =>
  }

  /** Parsing a canonical text gives the sorted value, already in enumeration order, which is equal to the
      original and prints to the same text again. */
  lemma CanonicalJsonRoundTrip(v: Json)
    requires Valid(v)
    ensures var p := ParseValue(CanonicalJson(v));
            && p.Success? && p.rest == [NEWLINE]
            && Proper(p.value) && Equal(v, p.value) && CanonicalJson(p.value) == CanonicalJson(v)
  {
    OwnKeyLeIsTotalOrder();
    SortedIsEnumerable(v);
    SortDeepIsValid(OwnKeyLe, v);
    PrintParses(SortDeep(OwnKeyLe, v), [NEWLINE]);
    EqualToSorted(OwnKeyLe, v);
    SortingIsIdempotent(OwnKeyLe, v);
  }

  // ---------------------------------------------------------------------------------------------
  // Filling the sorted object
  // ---------------------------------------------------------------------------------------------

  /** Assign a new property: objects keep index keys first in numeric order, others as inserted. */
  function Put(o: seq<Entry<Json>>, e: Entry<Json>): seq<Entry<Json>>
  {
    if o == [] || (IsIndexKey(e.key) && (!IsIndexKey(o[0].key) || IndexLe(e.key, o[0].key))) then [e] + o
    else [o[0]] + Put(o[1..], e)
  }

  lemma {:induction false} PutInserts(o: seq<Entry<Json>>, e: Entry<Json>)
    requires Ordered(OwnKeyLe, o) && forall i :: 0 <= i < |o| ==> o[i].key != e.key
    requires !IsIndexKey(e.key) ==> forall i :: 0 <= i < |o| && !IsIndexKey(o[i].key) ==> TextLe(o[i].key, e.key)
    ensures Put(o, e) == Insert(OwnKeyLe, e, o)
    decreases |o|
  {
    if o != [] {
      TextLeIsTotal(e.key, o[0].key);
      assert forall i :: 0 <= i < |o[1..]| ==> o[1..][i] == o[i + 1];
      PutInserts(o[1..], e);
    }
  }

  /** The sorted copy of a value: objects are rebuilt property by property in code-unit order of
      their keys, and what they enumerate is the canonical order. */
  method SortedJsonValue(v: Json) returns (r: Json)
    requires Valid(v)
    ensures r == SortDeep(OwnKeyLe, v)
    decreases v
  {
    match v
    case Arr(items) =>
      var out := SortedArray(items);
      r := Arr(out);
    case Obj(fields) =>
      var out := SortedObject(fields);
      r := Obj(out);
    case _ =>
      r := v;
  }

  method SortedArray(items: seq<Json>) returns (out: seq<Json>)
    requires forall i :: 0 <= i < |items| ==> Valid(items[i])
    ensures out == SortItems(OwnKeyLe, items)
    decreases items
  {
    out := [];
    for i := 0 to |items|
      invariant |out| == i && forall k :: 0 <= k < i ==> out[k] == SortDeep(OwnKeyLe, items[k])
    {
      var x := SortedJsonValue(items[i]);
      out := out + [x];
    }
  }

  method SortedObject(fields: seq<Entry<Json>>) returns (out: seq<Entry<Json>>)
    requires DistinctKeys(fields) && forall i :: 0 <= i < |fields| ==> Valid(fields[i].value)
    ensures out == SortEntries(OwnKeyLe, SortValues(OwnKeyLe, fields))
    decreases fields
  {
    var keys := SortEntries(TextLe, fields);
    KeysInTextOrder(fields, keys);
    out := [];
    for i := 0 to |keys|
      invariant Filled(keys, i, out)
    {
      assert keys[i] in keys;
      var x := SortedJsonValue(keys[i].value);
      PutFillsNext(keys, i, out);
      out := Put(out, Entry(keys[i].key, x));
    }
    FilledObjectIsSorted(fields, keys, out);
  }

  /** The object holds the sorted values of the first `n` keys and enumerates in its own order. */
  ghost predicate Filled(keys: seq<Entry<Json>>, n: nat, out: seq<Entry<Json>>)
    requires n <= |keys|
  {
    && Ordered(OwnKeyLe, out) && DistinctKeys(out)
    && forall e :: e in out <==> exists k :: 0 <= k < n && e == Entry(keys[k].key, SortDeep(OwnKeyLe, keys[k].value))
  }

  lemma PutFillsNext(keys: seq<Entry<Json>>, i: nat, out: seq<Entry<Json>>)
    requires i < |keys| && DistinctKeys(keys) && Ordered(TextLe, keys) && Filled(keys, i, out)
    ensures Filled(keys, i + 1, Put(out, Entry(keys[i].key, SortDeep(OwnKeyLe, keys[i].value))))
  {
    var e := Entry(keys[i].key, SortDeep(OwnKeyLe, keys[i].value));
    NextKeyFits(keys, i, out);
    PutInserts(out, e);
    InsertIntoObject(out, e);
  }

  lemma KeysInTextOrder(fields: seq<Entry<Json>>, keys: seq<Entry<Json>>)
    requires DistinctKeys(fields) && keys == SortEntries(TextLe, fields)
    ensures DistinctKeys(keys) && Ordered(TextLe, keys)
    ensures forall e :: e in keys <==> e in fields
  {
    forall a, b ensures TextLe(a, b) || TextLe(b, a) {
      TextLeIsTotal(a, b);
    }
    forall a, b, c | TextLe(a, b) && TextLe(b, c) ensures TextLe(a, c) {
      TextLeIsTransitive(a, b, c);
    }
    SortIsOrdered(TextLe, fields);
    SortKeepsDistinct(TextLe, fields);
    forall e ensures e in keys <==> e in fields {
      SortKeepsElements(TextLe, fields, e);
    }
  }

  lemma NextKeyFits(keys: seq<Entry<Json>>, i: nat, out: seq<Entry<Json>>)
    requires i < |keys| && DistinctKeys(keys) && Ordered(TextLe, keys)
    requires Filled(keys, i, out)
    ensures forall j :: 0 <= j < |out| ==> out[j].key != keys[i].key && TextLe(out[j].key, keys[i].key)
  {
    forall j | 0 <= j < |out|
      ensures out[j].key != keys[i].key && TextLe(out[j].key, keys[i].key)
    {
      assert out[j] in out;
    }
  }

  lemma InsertIntoObject(out: seq<Entry<Json>>, e: Entry<Json>)
    requires Ordered(OwnKeyLe, out) && DistinctKeys(out) && forall j :: 0 <= j < |out| ==> out[j].key != e.key
    ensures var r := Insert(OwnKeyLe, e, out);
            Ordered(OwnKeyLe, r) && DistinctKeys(r) && forall d :: d in r <==> d == e || d in out
  {
    OwnKeyLeIsTotalOrder();
    InsertIsOrdered(OwnKeyLe, e, out);
    InsertKeepsDistinct(OwnKeyLe, e, out);
    InsertHasElements(OwnKeyLe, e, out);
    var r := Insert(OwnKeyLe, e, out);
    forall d ensures d in r <==> d == e || d in out {
      assert d in r <==> d in multiset([e] + out);
    }
  }

  lemma FilledObjectIsSorted(fields: seq<Entry<Json>>, keys: seq<Entry<Json>>, out: seq<Entry<Json>>)
    requires DistinctKeys(fields) && (forall e :: e in keys <==> e in fields)
    requires Filled(keys, |keys|, out)
    ensures out == SortEntries(OwnKeyLe, SortValues(OwnKeyLe, fields))
  {
    var values := SortValues(OwnKeyLe, fields);
    OwnKeyLeIsTotalOrder();
    SortIsOrdered(OwnKeyLe, values);
    SortKeepsDistinct(OwnKeyLe, values);
    forall e
      ensures e in out <==> e in SortEntries(OwnKeyLe, values)
    {
      SortKeepsElements(OwnKeyLe, values, e);
      if e in out {
        var k :| 0 <= k < |keys| && e == Entry(keys[k].key, SortDeep(OwnKeyLe, keys[k].value));
        assert keys[k] in fields;
        var i :| 0 <= i < |fields| && fields[i] == keys[k];
        assert values[i] == e;
      }
      if e in values {
        var i :| 0 <= i < |values| && values[i] == e;
        assert fields[i] in keys;
        var k :| 0 <= k < |keys| && keys[k] == fields[i];
      }
    }
    OrderedIsUnique(OwnKeyLe, out, SortEntries(OwnKeyLe, values));
  }
}
