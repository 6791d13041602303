/** The administration table of tours: an in-memory product list seeded from
    mock data, a search box filtering by location, an add-or-edit save that
    rejects a name already used by another product, a delete that only logs,
    and a restricted-access notice on narrow screens. */
module AdminTable {
  import opened Common

  /** A tour as the table holds it (`precio` is a JavaScript number). */
  datatype Product = Product(
    id: Key, nombre: string, ubicacion: string, precio: real,
    fecha: string, stock: int, comprados: int)

  /** One rendered table row; `disponible` is the derived availability. */
  datatype Row = Row(
    ubicacion: string, nombre: string, precio: real,
    fecha: string, disponible: int, comprados: int)

  /** What the component renders. */
  datatype Screen = RestrictedNotice | Table(rows: seq<Row>)

  /** Viewports narrower than this many pixels get the restricted notice. */
  const MobileWidth: int := 768

  const DuplicateProductAlert: string :=
    "Ya existe un producto con ese nombre. Por favor, elija un nombre diferente."

  /** `window.innerWidth < 768`. */
  predicate IsMobile(width: int)
  {
    width < MobileWidth
  }

  // ---------------------------------------------------------------------
  // Saving: duplicate check and upsert by id

  /** Some product other than `item` (by id) already has exactly its name. */
  predicate IsDuplicateName(ps: seq<Product>, item: Product)
  {
    exists i :: 0 <= i < |ps| && ps[i].nombre == item.nombre && ps[i].id != item.id
  }

  /** `ps.findIndex(p => p.id === id)`: the first index carrying `id`, or -1. */
  function FindIndex(ps: seq<Product>, id: Key): (r: int)
    ensures -1 <= r < |ps|
    ensures r == -1 <==> forall i :: 0 <= i < |ps| ==> ps[i].id != id
    ensures r != -1 ==> ps[r].id == id && forall i :: 0 <= i < r ==> ps[i].id != id
  {
    if ps == [] then -1
    else if ps[0].id == id then 0
    else
      var k := FindIndex(ps[1..], id);
      if k == -1 then -1 else k + 1
  }

  /** The list `handleSave` stores for an accepted item: the first product
      with the item's id is replaced by it, or the item is appended when no
      product has that id. */
  function Upsert(ps: seq<Product>, item: Product): (r: seq<Product>)
    ensures FindIndex(ps, item.id) != -1 ==>
              var k := FindIndex(ps, item.id);
              |r| == |ps| && r[k] == item &&
              forall j :: 0 <= j < |ps| && j != k ==> r[j] == ps[j]
    ensures FindIndex(ps, item.id) == -1 ==> r == ps + [item]
  {
    var k := FindIndex(ps, item.id);
    if k != -1 then seq(|ps|, j requires 0 <= j < |ps| => if j == k then item else ps[j])
    else ps + [item]
  }

  /** No two products share an id. */
  ghost predicate UniqueIds(ps: seq<Product>)
  {
    forall i, j :: 0 <= i < j < |ps| ==> ps[i].id != ps[j].id
  }

  /** No two products share a name. */
  ghost predicate UniqueNames(ps: seq<Product>)
  {
    forall i, j :: 0 <= i < j < |ps| ==> ps[i].nombre != ps[j].nombre
  }

  /** The saved item is in the list, as the first entry with its id. */
  lemma UpsertPlacesItem(ps: seq<Product>, item: Product)
    ensures var r := Upsert(ps, item);
            var k := FindIndex(r, item.id);
            k != -1 && r[k] == item
  {
    var r := Upsert(ps, item);
    var k := FindIndex(ps, item.id);
    if k == -1 {
      assert r[|ps|] == item;
      assert forall i :: 0 <= i < |ps| ==> r[i] == ps[i];
      assert FindIndex(r, item.id) == |ps|;
    } else {
      assert forall i :: 0 <= i < k ==> r[i] == ps[i];
      assert FindIndex(r, item.id) == k;
    }
  }

  /** Saving an accepted item a second time is accepted again and changes
      nothing: the save is idempotent. */
  lemma SaveIdempotent(ps: seq<Product>, item: Product)
    requires !IsDuplicateName(ps, item)
    ensures !IsDuplicateName(Upsert(ps, item), item)
    ensures Upsert(Upsert(ps, item), item) == Upsert(ps, item)
  {
    var r := Upsert(ps, item);
    UpsertPlacesItem(ps, item);
    var k := FindIndex(r, item.id);
    forall i | 0 <= i < |r| && r[i].id != item.id ensures r[i].nombre != item.nombre {
      assert r[i] != item;
      assert i < |ps| && r[i] == ps[i];
    }
    assert Upsert(r, item) == r;
  }

  /** With unique ids, an accepted save keeps the ids unique and leaves exactly
      one entry with the item's id, which is the item. */
  lemma SaveKeepsIdsUnique(ps: seq<Product>, item: Product)
    requires UniqueIds(ps)
    ensures var r := Upsert(ps, item);
            UniqueIds(r) && item in r &&
            forall i :: 0 <= i < |r| && r[i].id == item.id ==> r[i] == item
  {
    var r := Upsert(ps, item);
    var k := FindIndex(ps, item.id);
    if k == -1 {
      assert r[|ps|] == item;
    } else {
      assert r[k] == item;
    }
  }

  /** With unique ids and unique names, an accepted save keeps the names
      unique. */
  lemma SaveKeepsNamesUnique(ps: seq<Product>, item: Product)
    requires UniqueIds(ps) && UniqueNames(ps)
    requires !IsDuplicateName(ps, item)
    ensures UniqueNames(Upsert(ps, item))
  {
    var r := Upsert(ps, item);
    var k := FindIndex(ps, item.id);
    forall i, j | 0 <= i < j < |r| ensures r[i].nombre != r[j].nombre {
      if k == -1 {
        if j == |ps| {
          assert ps[i].id != item.id;
        }
      } else if i == k {
        assert ps[j].id != ps[k].id;
      } else if j == k {
        assert ps[i].id != ps[k].id;
      }
    }
  }

  // ---------------------------------------------------------------------
  // Search by location

  /** The capital letters `toLowerCase` is modelled on: A-Z and the
      accented capitals U+00C0 to U+00DE of the Latin-1 Supplement block,
      except the multiplication sign U+00D7. */
  predicate IsUpper(c: char)
  {
    'A' <= c <= 'Z' || (0xC0 <= c as int <= 0xDE && c as int != 0xD7)
  }

  /** `toLowerCase` on one character: a capital becomes its small letter,
      32 code points further; every other character is kept. */
  function LowerChar(c: char): (r: char)
    ensures !IsUpper(r)
    ensures IsUpper(c) ==> r as int == c as int + 32
    ensures !IsUpper(c) ==> r == c
  {
    if IsUpper(c) then ((c as int) + 32) as char else c
  }

  /** `s.toLowerCase()`, character by character. */
  function Lower(s: string): (r: string)
    ensures |r| == |s|
    ensures forall i :: 0 <= i < |s| ==> r[i] == LowerChar(s[i])
  {
    seq(|s|, i requires 0 <= i < |s| => LowerChar(s[i]))
  }

  /** `hay.includes(needle)`: `needle` occurs in `hay` at some position. */
  predicate Contains(hay: string, needle: string)
    ensures needle == [] ==> Contains(hay, needle)
    ensures Contains(hay, needle) ==> |needle| <= |hay|
    ensures needle <= hay ==> Contains(hay, needle)
  {
    assert hay[0..] == hay;
    exists i :: 0 <= i <= |hay| && needle <= hay[i..]
  }

  /** The row filter: the product's lowercased location contains the
      lowercased search term. */
  predicate MatchesSearch(p: Product, term: string)
  {
    Contains(Lower(p.ubicacion), Lower(term))
  }

  /** `filteredData`: the products whose location matches the search term,
      in their order. */
  function FilteredData(ps: seq<Product>, term: string): (r: seq<Product>)
    ensures IsSubsequence(r, ps)
    ensures forall i :: 0 <= i < |r| ==> r[i] in ps && MatchesSearch(r[i], term)
    ensures forall i :: 0 <= i < |ps| && MatchesSearch(ps[i], term) ==> ps[i] in r
  {
    Filter(ps, p => MatchesSearch(p, term))
  }

  /** Lowercasing is idempotent. */
  lemma LowerIdempotent(s: string)
    ensures Lower(Lower(s)) == Lower(s)
  {
    assert forall i :: 0 <= i < |s| ==> LowerChar(LowerChar(s[i])) == LowerChar(s[i]);
  }

  /** The search ignores the case of the term: searching for its lowercase
      form selects the same products. */
  lemma SearchIgnoresCase(ps: seq<Product>, term: string)
    ensures FilteredData(ps, Lower(term)) == FilteredData(ps, term)
  {
    LowerIdempotent(term);
    FilterAgrees(ps, p => MatchesSearch(p, Lower(term)), p => MatchesSearch(p, term));
  }

  /** An empty search term shows every product. */
  lemma EmptySearchShowsAll(ps: seq<Product>)
    ensures FilteredData(ps, "") == ps
  {
    forall i | 0 <= i < |ps| ensures MatchesSearch(ps[i], "") {
      assert [] <= Lower(ps[i].ubicacion)[0..];
    }
    FilterKeepsAll(ps, p => MatchesSearch(p, ""));
  }

  /** Filtering an already filtered table by the same term changes nothing. */
  lemma SearchIdempotent(ps: seq<Product>, term: string)
    ensures FilteredData(FilteredData(ps, term), term) == FilteredData(ps, term)
  {
    FilterIdempotent(ps, p => MatchesSearch(p, term));
  }

  /** Searching a concatenation of lists searches each part. */
  lemma SearchAppend(a: seq<Product>, b: seq<Product>, term: string)
    ensures FilteredData(a + b, term) == FilteredData(a, term) + FilteredData(b, term)
  {
    FilterAppend(a, b, p => MatchesSearch(p, term));
  }

  /** The search keeps every matching product as many times as it occurs
      and no product that does not match. */
  lemma SearchCount(ps: seq<Product>, term: string, p: Product)
    ensures multiset(FilteredData(ps, term))[p] == if MatchesSearch(p, term) then multiset(ps)[p] else 0
  {
    FilterCount(ps, q => MatchesSearch(q, term), p);
  }

  // ---------------------------------------------------------------------
  // Rendering

  /** The row shown for a product; its availability is `stock - comprados`. */
  function RowOf(p: Product): (r: Row)
    ensures r.disponible + r.comprados == p.stock
    ensures r.ubicacion == p.ubicacion && r.nombre == p.nombre && r.precio == p.precio
    ensures r.fecha == p.fecha && r.comprados == p.comprados
  {
    Row(p.ubicacion, p.nombre, p.precio, p.fecha, p.stock - p.comprados, p.comprados)
  }

  /** The component: the product list, the search term, the viewport flag and
      the text of the last alert shown. */
  class Admin {
    var productos: seq<Product>
    var searchTerm: string
    var isMobile: bool
    var alert: Option<string>

    /** Mounting: the mock products, an empty search, the flag computed from
        the initial viewport width. */
    constructor (mock: seq<Product>, width: int)
      ensures productos == mock && searchTerm == ""
      ensures isMobile == IsMobile(width) && alert == None
    {
      productos := mock;
      searchTerm := "";
      isMobile := IsMobile(width);
      alert := None;
    }

    /** The resize listener: recomputes the flag from the new width. */
    method CheckScreenSize(width: int)
      modifies this`isMobile
      ensures isMobile == IsMobile(width)
    {
      isMobile := IsMobile(width);
    }

    /** `handleSearch`: stores the typed term. */
    method HandleSearch(value: string)
      modifies this`searchTerm
      ensures searchTerm == value
    {
      searchTerm := value;
    }

    /** `handleSave`: a duplicate name is rejected with an alert and the list
        is left as it was; otherwise the item is upserted by id. */
    method HandleSave(item: Product)
      modifies this`productos, this`alert
      ensures IsDuplicateName(old(productos), item) ==>
                productos == old(productos) && alert == Some(DuplicateProductAlert)
      ensures !IsDuplicateName(old(productos), item) ==>
                productos == Upsert(old(productos), item) && alert == old(alert)
    {
      if IsDuplicateName(productos, item) {
        alert := Some(DuplicateProductAlert);
        return;
      }
      productos := Upsert(productos, item);
    }

    /** `handleDelete`: only logs the item; the component keeps its state. */
    method HandleDelete(item: Product)
      ensures unchanged(this)
    {
    }

    /** What is rendered: the notice on a narrow screen, otherwise one row per
        product matching the search, in list order. */
    function View(): (s: Screen)
      reads this
      ensures s.RestrictedNotice? <==> isMobile
      ensures s.Table? ==>
                var shown := FilteredData(productos, searchTerm);
                |s.rows| == |shown| &&
                forall i :: 0 <= i < |shown| ==>
                  s.rows[i].disponible == shown[i].stock - shown[i].comprados &&
                  s.rows[i] == RowOf(shown[i])
    {
      if isMobile then RestrictedNotice
      else
        var shown := FilteredData(productos, searchTerm);
        Table(seq(|shown|, i requires 0 <= i < |shown| => RowOf(shown[i])))
    }
  }

  /** A save whose name is taken by a product with another id leaves a
      one-product table at one product. */
  method DuplicateScenario(city: Product, other: Product)
    requires city.nombre == other.nombre && city.id != other.id
  {
    var admin := new Admin([city], 1024);
    admin.HandleSave(other);
    assert IsDuplicateName([city], other) by { assert [city][0] == city; }
    assert admin.productos == [city] && admin.alert == Some(DuplicateProductAlert);
    assert admin.View().Table?;
    admin.CheckScreenSize(500);
    assert admin.View() == RestrictedNotice;
  }
}
