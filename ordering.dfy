/**
 * The listing's ordering (`ordering_fields` and `ordering` on the product
 * view, applied by DRF's OrderingFilter): which `ordering=` terms are
 * honoured, the newest-first default, and the lexicographic multi-key
 * order the database sorts by.
 */
module Ordering {
  import opened Wrappers
  import opened Text
  import opened Catalog

  /** `ordering_fields = ['name', 'price', 'created_at', 'stock_quantity']` */
  datatype Field = Name | Price | CreatedAt | StockQuantity

  datatype OrderKey = OrderKey(field: Field, descending: bool)

  function FieldName(f: Field): string {
    match f
    case Name => "name"
    case Price => "price"
    case CreatedAt => "created_at"
    case StockQuantity => "stock_quantity"
  }

  /** The whitelisted field a query-parameter name denotes, if any. */
  function FieldNamed(s: string): (r: Option<Field>)
    ensures r.Some? <==> s in {"name", "price", "created_at", "stock_quantity"}
    ensures r.Some? ==> FieldName(r.value) == s
  {
    if s == "name" then Some(Name)
    else if s == "price" then Some(Price)
    else if s == "created_at" then Some(CreatedAt)
    else if s == "stock_quantity" then Some(StockQuantity)
    else None
  }

  /** One `ordering=` term: a whitelisted field name, ascending, or the same prefixed by "-", descending. */
  function ParseTerm(t: string): (r: Option<OrderKey>)
    ensures r.Some? && !r.value.descending ==> t == FieldName(r.value.field)
    ensures r.Some? && r.value.descending ==> t == "-" + FieldName(r.value.field)
    ensures forall f :: t == FieldName(f) ==> r == Some(OrderKey(f, false))
    ensures forall f :: t == "-" + FieldName(f) ==> r == Some(OrderKey(f, true))
  {
    match FieldNamed(t)
    case Some(f) =>
      assert t[0] != '-';
      Some(OrderKey(f, false))
    case None =>
      if |t| > 0 && t[0] == '-' then
        match FieldNamed(t[1..])
        case Some(f) =>
          assert t == "-" + t[1..];
          Some(OrderKey(f, true))
        case None => None
      else None
  }

  /** `ordering = ['-created_at']`: newest first. */
  const DefaultOrdering: seq<OrderKey> := [OrderKey(CreatedAt, true)]

  /** The honoured terms, in the order given; invalid terms are dropped. */
  function ValidKeys(terms: seq<string>): (r: seq<OrderKey>)
    ensures |r| <= |terms|
    ensures forall k :: k in r ==> exists t :: t in terms && ParseTerm(t) == Some(k)
    ensures forall t :: t in terms && ParseTerm(t).Some? ==> ParseTerm(t).value in r
    ensures r == [] <==> forall t :: t in terms ==> ParseTerm(t).None?
  {
    if terms == [] then []
    else KeyOf(terms[0]) + ValidKeys(terms[1..])
  }

  /** The key one term contributes: its own when it is valid, none otherwise. */
  function KeyOf(t: string): seq<OrderKey> {
    match ParseTerm(t)
    case Some(k) => [k]
    case None => []
  }

  /** The keys of a concatenation of requests are the keys of each, in order, repeats kept. */
  lemma {:induction false} ValidKeysConcat(a: seq<string>, b: seq<string>)
    ensures ValidKeys(a + b) == ValidKeys(a) + ValidKeys(b)
  {
    if a == [] {
      assert a + b == b;
    } else {
      var ab := a + b;
      calc {
        ValidKeys(ab);
        KeyOf(ab[0]) + ValidKeys(ab[1..]);
        { assert ab[0] == a[0] && ab[1..] == a[1..] + b;
          ValidKeysConcat(a[1..], b); }
        KeyOf(a[0]) + (ValidKeys(a[1..]) + ValidKeys(b));
        (KeyOf(a[0]) + ValidKeys(a[1..])) + ValidKeys(b);
        ValidKeys(a) + ValidKeys(b);
      }
    }
  }

  /** One more term adds its key at the end when it is valid, and nothing otherwise. */
  lemma ValidKeysAppend(terms: seq<string>, t: string)
    ensures ValidKeys(terms + [t])
         == ValidKeys(terms) + (if ParseTerm(t).Some? then [ParseTerm(t).value] else [])
  {
    ValidKeysConcat(terms, [t]);
    ValidKeysOne(t);
  }

  /** A single term contributes its own key when it is valid, and nothing otherwise. */
  lemma ValidKeysOne(t: string)
    ensures ValidKeys([t]) == if ParseTerm(t).Some? then [ParseTerm(t).value] else []
  {
    assert [t][1..] == [];
  }

  /** DRF's OrderingFilter: the valid requested terms, or the default when none is valid or none was given. */
  function ResolveOrdering(terms: seq<string>): (r: seq<OrderKey>)
    ensures r != []
    ensures ValidKeys(terms) != [] ==> r == ValidKeys(terms)
    ensures ValidKeys(terms) == [] ==> r == DefaultOrdering
    ensures (forall t :: t in terms ==> ParseTerm(t).None?) ==> r == DefaultOrdering
    ensures (exists t :: t in terms && ParseTerm(t).Some?) ==>
              forall k :: k in r ==> exists t :: t in terms && ParseTerm(t) == Some(k)
  {
    var valid := ValidKeys(terms);
    if valid == [] then DefaultOrdering else valid
  }

  /** An empty `ordering=` parameter gives the default ordering. */
  lemma EmptyParamGivesDefault()
    ensures ResolveOrdering(OrderingTerms("")) == DefaultOrdering
  {
    assert SplitOnComma("") == [""];
    assert OrderingTerms("") == [""];
    assert FieldNamed("") == None;
  }

  /** The number of commas in `s`. */
  function Commas(s: string): nat {
    if s == [] then 0 else (if s[0] == ',' then 1 else 0) + Commas(s[1..])
  }

  /** Python's `sep.join(pieces)`. */
  function Join(pieces: seq<string>, sep: char): string
    requires |pieces| >= 1
  {
    if |pieces| == 1 then pieces[0] else pieces[0] + [sep] + Join(pieces[1..], sep)
  }

  /**
   * Python's `s.split(',')`: the comma-free pieces between the commas, one
   * more than there are commas, which joined by commas give `s` back.
   */
  function SplitOnComma(s: string): (r: seq<string>)
    ensures |r| == Commas(s) + 1
    ensures forall i :: 0 <= i < |r| ==> ',' !in r[i]
    ensures Join(r, ',') == s
  {
    if s == [] then [""]
    else
      var rest := SplitOnComma(s[1..]);
      assert s == [s[0]] + s[1..];
      if s[0] == ',' then
        assert ([""] + rest)[1..] == rest;
        [""] + rest
      else
        var r := [[s[0]] + rest[0]] + rest[1..];
        assert Join(r, ',') == s by {
          if |rest| > 1 {
            assert r[1..] == rest[1..];
            assert Join(rest, ',') == rest[0] + [','] + Join(rest[1..], ',');
          }
        }
        r
  }

  /** A comma-free prefix joins the first piece of what follows it. */
  lemma {:induction false} SplitPrefix(p: string, s: string)
    requires ',' !in p
    ensures SplitOnComma(p + s) == [p + SplitOnComma(s)[0]] + SplitOnComma(s)[1..]
  {
    if p == [] {
      assert p + s == s && p + SplitOnComma(s)[0] == SplitOnComma(s)[0];
      assert [SplitOnComma(s)[0]] + SplitOnComma(s)[1..] == SplitOnComma(s);
    } else {
      assert (p + s)[0] == p[0] && (p + s)[1..] == p[1..] + s;
      SplitPrefix(p[1..], s);
      assert [p[0]] + (p[1..] + SplitOnComma(s)[0]) == p + SplitOnComma(s)[0];
    }
  }

  /** Splitting undoes joining: comma-free pieces joined by commas split back into the same pieces. */
  lemma {:induction false} SplitJoin(pieces: seq<string>)
    requires |pieces| >= 1
    requires forall i :: 0 <= i < |pieces| ==> ',' !in pieces[i]
    ensures SplitOnComma(Join(pieces, ',')) == pieces
  {
    if |pieces| == 1 {
      SplitPrefix(pieces[0], "");
      assert pieces[0] + "" == pieces[0];
    } else {
      var tail := Join(pieces[1..], ',');
      SplitJoin(pieces[1..]);
      var rest := [','] + tail;
      assert Join(pieces, ',') == pieces[0] + [','] + tail;
      assert rest[0] == ',' && rest[1..] == tail;
      assert SplitOnComma(rest) == [""] + pieces[1..];
      SplitPrefix(pieces[0], rest);
      assert Join(pieces, ',') == pieces[0] + rest;
      assert pieces[0] + "" == pieces[0];
      assert pieces == [pieces[0]] + pieces[1..];
    }
  }

  /** The raw `ordering=` value as OrderingFilter reads it: split on commas, each piece stripped. */
  function OrderingTerms(param: string): (r: seq<string>)
    ensures |r| == |SplitOnComma(param)|
    ensures forall i :: 0 <= i < |r| ==> r[i] == Strip(SplitOnComma(param)[i])
  {
    var pieces := SplitOnComma(param);
    seq(|pieces|, i requires 0 <= i < |pieces| => Strip(pieces[i]))
  }

  /** The `i`-th term of `f0,f1,...` is the `i`-th comma-separated field, stripped. */
  lemma OrderingTermsOfFields(fields: seq<string>)
    requires |fields| >= 1
    requires forall i :: 0 <= i < |fields| ==> ',' !in fields[i]
    ensures |OrderingTerms(Join(fields, ','))| == |fields|
    ensures forall i :: 0 <= i < |fields| ==> OrderingTerms(Join(fields, ','))[i] == Strip(fields[i])
  {
    SplitJoin(fields);
  }

  datatype FieldValue = IntValue(n: int) | TextValue(s: string)

  function ValueOf(p: Product, f: Field): FieldValue {
    match f
    case Name => TextValue(p.name)
    case Price => IntValue(p.priceCents)
    case CreatedAt => IntValue(p.createdAt)
    case StockQuantity => IntValue(p.stockQuantity)
  }

  function IntCmp(a: int, b: int): (r: int)
    ensures r == 0 <==> a == b
    ensures r < 0 <==> a < b
    ensures -1 <= r <= 1
  {
    if a < b then -1 else if a > b then 1 else 0
  }

  /** Lexicographic comparison of strings by code point: -1, 0 or 1, and 0 only for equal strings. */
  function TextCmp(a: string, b: string): (r: int)
    ensures -1 <= r <= 1
    ensures r == 0 <==> a == b
  {
    if a == [] && b == [] then 0
    else if a == [] then -1
    else if b == [] then 1
    else if a[0] < b[0] then -1
    else if a[0] > b[0] then 1
    else
      assert a == [a[0]] + a[1..] && b == [b[0]] + b[1..];
      TextCmp(a[1..], b[1..])
  }

  lemma {:induction false} TextCmpFlip(a: string, b: string)
    ensures TextCmp(a, b) == -TextCmp(b, a)
  {
    if a != [] && b != [] && a[0] == b[0] {
      TextCmpFlip(a[1..], b[1..]);
    }
  }

  lemma {:induction false} TextCmpStrictTrans(a: string, b: string, c: string)
    requires TextCmp(a, b) < 0 && TextCmp(b, c) < 0
    ensures TextCmp(a, c) < 0
  {
    if a != [] && b != [] && c != [] && a[0] == b[0] && b[0] == c[0] {
      TextCmpStrictTrans(a[1..], b[1..], c[1..]);
    }
  }

  function ValueCmp(x: FieldValue, y: FieldValue): (r: int)
    ensures -1 <= r <= 1
  {
    match (x, y)
    case (IntValue(m), IntValue(n)) => IntCmp(m, n)
    case (TextValue(s), TextValue(t)) => TextCmp(s, t)
    case (IntValue(_), TextValue(_)) => -1
    case (TextValue(_), IntValue(_)) => 1
  }

  lemma ValueCmpLaws(x: FieldValue, y: FieldValue, z: FieldValue)
    ensures ValueCmp(x, y) == 0 <==> x == y
    ensures ValueCmp(x, y) == -ValueCmp(y, x)
    ensures ValueCmp(x, y) < 0 && ValueCmp(y, z) < 0 ==> ValueCmp(x, z) < 0
  {
    if x.TextValue? && y.TextValue? {
      TextCmpFlip(x.s, y.s);
      if z.TextValue? && ValueCmp(x, y) < 0 && ValueCmp(y, z) < 0 {
        TextCmpStrictTrans(x.s, y.s, z.s);
      }
    }
  }

  /** The comparison one ordering key makes: the field's order, reversed when descending. */
  function KeyCmp(p: Product, q: Product, k: OrderKey): (r: int)
    ensures -1 <= r <= 1
  {
    var c := ValueCmp(ValueOf(p, k.field), ValueOf(q, k.field));
    if k.descending then -c else c
  }

  lemma KeyCmpLaws(p: Product, q: Product, o: Product, k: OrderKey)
    ensures KeyCmp(p, q, k) == 0 <==> ValueOf(p, k.field) == ValueOf(q, k.field)
    ensures KeyCmp(p, q, k) == -KeyCmp(q, p, k)
    ensures KeyCmp(p, q, k) < 0 && KeyCmp(q, o, k) < 0 ==> KeyCmp(p, o, k) < 0
  {
    var x, y, z := ValueOf(p, k.field), ValueOf(q, k.field), ValueOf(o, k.field);
    ValueCmpLaws(x, y, z);
    ValueCmpLaws(y, z, x);
    ValueCmpLaws(z, y, x);
    ValueCmpLaws(x, z, y);
    ValueCmpLaws(y, x, z);
    ValueCmpLaws(z, x, y);
  }

  /** `ORDER BY k1, k2, ...`: the first key that tells the two rows apart decides. */
  function Cmp(p: Product, q: Product, keys: seq<OrderKey>): (r: int)
    ensures -1 <= r <= 1
  {
    if keys == [] then 0
    else
      var c := KeyCmp(p, q, keys[0]);
      if c != 0 then c else Cmp(p, q, keys[1..])
  }

  predicate Le(p: Product, q: Product, keys: seq<OrderKey>) {
    Cmp(p, q, keys) <= 0
  }

  lemma {:induction false} CmpFlip(p: Product, q: Product, keys: seq<OrderKey>)
    ensures Cmp(p, q, keys) == -Cmp(q, p, keys)
  {
    if keys != [] {
      KeyCmpLaws(p, q, p, keys[0]);
      CmpFlip(p, q, keys[1..]);
    }
  }

  /** Any two rows are comparable. */
  lemma LeTotal(p: Product, q: Product, keys: seq<OrderKey>)
    ensures Le(p, q, keys) || Le(q, p, keys)
  {
    CmpFlip(p, q, keys);
  }

  lemma {:induction false} LeTrans(p: Product, q: Product, o: Product, keys: seq<OrderKey>)
    requires Le(p, q, keys) && Le(q, o, keys)
    ensures Le(p, o, keys)
  {
    if keys != [] {
      var k := keys[0];
      KeyCmpLaws(p, q, o, k);
      KeyCmpLaws(q, o, p, k);
      KeyCmpLaws(p, o, q, k);
      if KeyCmp(p, q, k) == 0 && KeyCmp(q, o, k) == 0 {
        LeTrans(p, q, o, keys[1..]);
      }
    }
  }

  /** Every earlier row is ordered no later than every later row. */
  ghost predicate SortedBy(s: seq<Product>, keys: seq<OrderKey>) {
    forall i, j :: 0 <= i < j < |s| ==> Le(s[i], s[j], keys)
  }

  /** A row ordered before every row of a sorted sequence can be put in front of it. */
  lemma ConsSorted(y: Product, s: seq<Product>, keys: seq<OrderKey>)
    requires SortedBy(s, keys)
    requires forall z :: z in s ==> Le(y, z, keys)
    ensures SortedBy([y] + s, keys)
  {
    var r := [y] + s;
    forall i, j | 0 <= i < j < |r| ensures Le(r[i], r[j], keys) {
      assert r[j] == s[j - 1];
      if i > 0 { assert r[i] == s[i - 1]; }
    }
  }

  lemma SortedHeadFirst(x: Product, s: seq<Product>, keys: seq<OrderKey>)
    requires SortedBy(s, keys) && s != [] && Le(x, s[0], keys)
    ensures forall z :: z in s ==> Le(x, z, keys)
  {
    forall z | z in s ensures Le(x, z, keys) {
      var j :| 0 <= j < |s| && s[j] == z;
      if j > 0 { LeTrans(x, s[0], s[j], keys); }
    }
  }

  lemma SortedTail(s: seq<Product>, keys: seq<OrderKey>)
    requires SortedBy(s, keys) && s != []
    ensures SortedBy(s[1..], keys)
    ensures forall z :: z in s[1..] ==> Le(s[0], z, keys)
  {
    forall z | z in s[1..] ensures Le(s[0], z, keys) {
      var j :| 0 <= j < |s| - 1 && s[1..][j] == z;
      assert s[j + 1] == z;
    }
  }

  /** Insertion of one row into a sorted sequence. */
  function Insert(x: Product, s: seq<Product>, keys: seq<OrderKey>): (r: seq<Product>)
    requires SortedBy(s, keys)
    ensures SortedBy(r, keys)
    ensures multiset(r) == multiset(s) + multiset{x}
  {
    if s == [] then [x]
    else if Le(x, s[0], keys) then
      SortedHeadFirst(x, s, keys);
      ConsSorted(x, s, keys);
      [x] + s
    else
      SortedTail(s, keys);
      var rest := Insert(x, s[1..], keys);
      LeTotal(x, s[0], keys);
      InsertedBelow(s[0], x, s[1..], rest, keys);
      ConsSorted(s[0], rest, keys);
      assert s == [s[0]] + s[1..];
      [s[0]] + rest
  }

  /** A row ordered before `x` and before every row of `t` is ordered before every row of `t` with `x` added. */
  lemma InsertedBelow(y: Product, x: Product, t: seq<Product>, rest: seq<Product>, keys: seq<OrderKey>)
    requires multiset(rest) == multiset(t) + multiset{x}
    requires Le(y, x, keys) && forall z :: z in t ==> Le(y, z, keys)
    ensures forall z :: z in rest ==> Le(y, z, keys)
  {
    forall z | z in rest ensures Le(y, z, keys) {
      assert z in multiset(rest);
      if z != x {
        assert z in multiset(t);
      }
    }
  }

  /** The rows ordered by the keys: sorted, and a permutation of the input. */
  function Sort(s: seq<Product>, keys: seq<OrderKey>): (r: seq<Product>)
    ensures SortedBy(r, keys)
    ensures multiset(r) == multiset(s)
  {
    if s == [] then []
    else
      assert s == [s[0]] + s[1..];
      Insert(s[0], Sort(s[1..], keys), keys)
  }

  /** `ordering=price` lists prices in non-decreasing order, `ordering=-price` in non-increasing order. */
  lemma SortByPrice(s: seq<Product>, descending: bool)
    ensures var r := Sort(s, [OrderKey(Price, descending)]);
      forall i, j :: 0 <= i < j < |r| ==>
        if descending then r[i].priceCents >= r[j].priceCents else r[i].priceCents <= r[j].priceCents
  {
  }

  /** Rows in the default ordering are listed newer first. */
  lemma DefaultOrderingIsNewestFirst(r: seq<Product>)
    requires SortedBy(r, DefaultOrdering)
    ensures forall i, j :: 0 <= i < j < |r| ==> r[i].createdAt >= r[j].createdAt
  {
  }
}
