/** `ProductDto`: the product record read back from a stored node, with
    equality and hashing by `sourceId` alone. */
module Products {

  import opened Outcomes

  /** A property value as the record store hands it back. */
  datatype Value =
    | Str(s: string)
    | Num(x: real)
    | Bool(b: bool)
    | List(items: seq<Value>)

  /** The property map of a stored node; an absent key is an absent property. */
  type Node = map<string, Value>

  /** Categories keep the store's values: the unchecked cast to `List<String>`
      lets any list through. */
  datatype Product = Product(
    sourceId: string,
    title: string,
    description: string,
    itemDetails: string,
    categories: seq<Value>,
    text: string)

  /** A vector as the list property the store keeps it as. */
  function Nums(xs: seq<real>): (r: seq<Value>)
    ensures |r| == |xs| && forall i :: 0 <= i < |xs| ==> r[i] == Num(xs[i])
  {
    if |xs| == 0 then [] else [Num(xs[0])] + Nums(xs[1..])
  }

  /** `(String) properties.getOrDefault(key, "")`. */
  function StringField(node: Node, key: string): (r: Result<string>)
    ensures key !in node ==> r == Success("")
    ensures key in node && node[key].Str? ==> r == Success(node[key].s)
    ensures key in node && !node[key].Str? ==> r == Failure(ClassCast(key))
  {
    if key !in node then Success("")
    else if node[key].Str? then Success(node[key].s)
    else Failure(ClassCast(key))
  }

  /** `ProductDto.parseCategories`: a list passes through, anything else,
      absence included, is the empty list. */
  function CategoriesOf(raw: Option<Value>): (r: seq<Value>)
    ensures raw.Some? && raw.value.List? ==> r == raw.value.items
    ensures !(raw.Some? && raw.value.List?) ==> r == []
  {
    match raw
    case Some(List(items)) => items
    case _ => []
  }

  function Lookup(node: Node, key: string): Option<Value> {
    if key in node then Some(node[key]) else None
  }

  /** The keys `fromNode` casts to a string, in the order the constructor
      arguments are evaluated. */
  const StringKeys: seq<string> := ["sourceId", "title", "description", "item_details", "text"]

  /** The value under `key` is absent or a string, so the cast succeeds. */
  predicate Castable(node: Node, key: string) {
    key !in node || node[key].Str?
  }

  /** `ProductDto.fromNode`. The arguments are evaluated left to right, so a
      failed cast reports the first offending key of `StringKeys`; reading
      `categories` never fails. */
  function FromNode(node: Node): (r: Result<Product>)
    ensures r.Success? <==> forall i :: 0 <= i < |StringKeys| ==> Castable(node, StringKeys[i])
    ensures r.Failure? ==>
              exists i :: 0 <= i < |StringKeys| && r.error == ClassCast(StringKeys[i])
                          && !Castable(node, StringKeys[i])
                          && forall j :: 0 <= j < i ==> Castable(node, StringKeys[j])
  {
    var keys := StringKeys;
    assert keys[0] == "sourceId" && keys[1] == "title" && keys[2] == "description"
           && keys[3] == "item_details" && keys[4] == "text";
    if !Castable(node, keys[0]) then Failure(ClassCast(keys[0]))
    else if !Castable(node, keys[1]) then Failure(ClassCast(keys[1]))
    else if !Castable(node, keys[2]) then Failure(ClassCast(keys[2]))
    else if !Castable(node, keys[3]) then Failure(ClassCast(keys[3]))
    else if !Castable(node, keys[4]) then Failure(ClassCast(keys[4]))
    else
      Success(Product(
        StringField(node, "sourceId").value,
        StringField(node, "title").value,
        StringField(node, "description").value,
        StringField(node, "item_details").value,
        CategoriesOf(Lookup(node, "categories")),
        StringField(node, "text").value))
  }

  /** The value `fromNode` gives a field: the stored string, or "" when the
      property is absent. */
  function FieldOrEmpty(node: Node, key: string): string {
    if key in node && node[key].Str? then node[key].s else ""
  }

  /** A successful `fromNode` copies each present string property verbatim,
      reads `itemDetails` from the key `item_details`, and puts "" where a
      property is missing. */
  lemma FromNodeFields(node: Node)
    requires FromNode(node).Success?
    ensures var p := FromNode(node).value;
            && p.sourceId == FieldOrEmpty(node, "sourceId")
            && p.title == FieldOrEmpty(node, "title")
            && p.description == FieldOrEmpty(node, "description")
            && p.itemDetails == FieldOrEmpty(node, "item_details")
            && p.text == FieldOrEmpty(node, "text")
            && p.categories == CategoriesOf(Lookup(node, "categories"))
  {
  }

  /** A node with no properties reads as the all-empty product. */
  lemma FromEmptyNode()
    ensures FromNode(map[]) == Success(Product("", "", "", "", [], ""))
  {
  }

  /** A non-string title is reported even when a later field is also bad,
      and a bad `sourceId` is reported before it. */
  lemma FromNodeFirstFailure(n: real)
    ensures FromNode(map["title" := Num(n), "text" := Bool(true)]) == Failure(ClassCast("title"))
    ensures FromNode(map["title" := Num(n), "sourceId" := List([])]) == Failure(ClassCast("sourceId"))
  {
  }

  /** `ProductDto.equals`: only `sourceId` is compared. Equal products hash
      alike, whatever their other fields, so `hashCode` agrees with it. */
  function Equals(a: Product, b: Product): (r: bool)
    ensures a == b ==> r
    ensures r ==> HashCode(a) == HashCode(b)
  {
    a.sourceId == b.sourceId
  }

  lemma EqualsIsEquivalence(a: Product, b: Product, c: Product)
    ensures Equals(a, a)
    ensures Equals(a, b) ==> Equals(b, a)
    ensures Equals(a, b) && Equals(b, c) ==> Equals(a, c)
  {
  }

  /** Products that differ in every field but `sourceId` are still equal,
      and products with different ids are never equal. */
  lemma EqualsIgnoresOtherFields(a: Product, b: Product, title: string, description: string,
                                 itemDetails: string, categories: seq<Value>, text: string)
    ensures Equals(a, Product(a.sourceId, title, description, itemDetails, categories, text))
    ensures a.sourceId != b.sourceId ==> !Equals(a, b)
  {
  }

  /* Java's `int` arithmetic. */

  const TwoTo31: int := 0x8000_0000
  const TwoTo32: int := 0x1_0000_0000

  predicate IsInt32(x: int) {
    -TwoTo31 <= x < TwoTo31
  }

  /** Wraps an integer into the 32-bit two's complement range, as Java's
      `int` addition and multiplication do. */
  function ToInt32(x: int): (r: int)
    ensures IsInt32(r)
    ensures (r - x) % TwoTo32 == 0
    ensures IsInt32(x) ==> r == x
  {
    (x + TwoTo31) % TwoTo32 - TwoTo31
  }

  /** `String.hashCode`: `h = 31 * h + c` over the characters, in `int`
      arithmetic, starting from 0. */
  function StringHash(s: string): (r: int)
    ensures IsInt32(r)
  {
    if |s| == 0 then 0
    else ToInt32(31 * StringHash(s[..|s| - 1]) + s[|s| - 1] as int)
  }

  /** The loop of `String.hashCode`, one character at a time. */
  method StringHashCode(s: string) returns (h: int)
    ensures h == StringHash(s)
    ensures IsInt32(h)
  {
    h := 0;
    var i := 0;
    while i < |s|
      invariant 0 <= i <= |s|
      invariant h == StringHash(s[..i])
    {
      assert s[..i + 1][..i] == s[..i];
      h := ToInt32(31 * h + s[i] as int);
      i := i + 1;
    }
    assert s[..i] == s;
  }

  /** The hash as the textbook polynomial, without wrap-around:
      `s[0]*31^(n-1) + ... + s[n-1]`. */
  function Poly(s: string): int {
    if |s| == 0 then 0 else 31 * Poly(s[..|s| - 1]) + s[|s| - 1] as int
  }

  /** Wrapping after every step is the same as wrapping the polynomial once. */
  lemma {:induction false} StringHashIsPoly(s: string)
    ensures StringHash(s) == ToInt32(Poly(s))
  {
    if |s| > 0 {
      var p := s[..|s| - 1];
      StringHashIsPoly(p);
      WrapStep(Poly(p), s[|s| - 1] as int);
    }
  }

  /** Wrapping the accumulator before the step does not change the result. */
  lemma WrapStep(a: int, c: int)
    ensures ToInt32(31 * ToInt32(a) + c) == ToInt32(31 * a + c)
  {
    var w := ToInt32(a);
    var k := (w - a) / TwoTo32;
    assert w == a + k * TwoTo32;
    assert 31 * w + c == 31 * a + c + (31 * k) * TwoTo32;
    ModShift(31 * a + c + TwoTo31, 31 * k);
  }

  lemma ModShift(x: int, m: int)
    ensures (x + m * TwoTo32) % TwoTo32 == x % TwoTo32
  {
  }

  /** `ProductDto.hashCode`: `Objects.hash(sourceId)`, which is
      `31 * 1 + sourceId.hashCode()` in `int` arithmetic. */
  function HashCode(p: Product): (r: int)
    ensures IsInt32(r)
    ensures r == ToInt32(31 + Poly(p.sourceId))
  {
    StringHashIsPoly(p.sourceId);
    WrapAdd(31, Poly(p.sourceId));
    ToInt32(31 + StringHash(p.sourceId))
  }

  lemma WrapAdd(a: int, b: int)
    ensures ToInt32(a + ToInt32(b)) == ToInt32(a + b)
  {
    var w := ToInt32(b);
    var k := (w - b) / TwoTo32;
    assert w == b + k * TwoTo32;
    ModShift(a + b + TwoTo31, k);
  }

  /** `Objects.hash("")` is 31 and `Objects.hash("a")` is 31 + 97. */
  lemma HashCodeExamples(p: Product)
    ensures HashCode(p.(sourceId := "")) == 31
    ensures HashCode(p.(sourceId := "a")) == 128
  {
    assert "a"[..0] == "";
  }
}
