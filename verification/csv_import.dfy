/** The text helpers of `ProductCsvImporter`: the category list parsed from a
    CSV cell, the combined text that is embedded and indexed, and the
    property map a record is stored as. */
module CsvImport {

  import opened Outcomes
  import opened Text
  import opened Basics
  import opened Products
  import EmbeddingClient

  /** `String.split(",")` as Java has it: a string without the separator is
      one piece, otherwise the pieces between separators with the trailing
      empty pieces removed (`",".split(",")` is empty, `"".split(",")` is
      `[""]`). */
  function JavaSplit(s: string, sep: char): (r: seq<string>)
    ensures r <= Split(s, sep)
    ensures forall i :: |r| <= i < |Split(s, sep)| ==> Split(s, sep)[i] == ""
    ensures sep !in s ==> r == [s]
    ensures sep in s ==> |r| == 0 || r[|r| - 1] != ""
  {
    if sep !in s then
      SplitWhole(s, sep);
      [s]
    else DropTrailingEmpty(Split(s, sep))
  }

  function DropTrailingEmpty(xs: seq<string>): (r: seq<string>)
    ensures r <= xs
    ensures |r| > 0 ==> r[|r| - 1] != ""
    ensures forall i :: |r| <= i < |xs| ==> xs[i] == ""
  {
    if |xs| > 0 && xs[|xs| - 1] == "" then DropTrailingEmpty(xs[..|xs| - 1]) else xs
  }

  /** `.map(String::trim)`. */
  function TrimAll(xs: seq<string>): (r: seq<string>)
    ensures |r| == |xs|
    ensures forall i :: 0 <= i < |xs| ==> r[i] == Trim(xs[i])
  {
    if |xs| == 0 then [] else [Trim(xs[0])] + TrimAll(xs[1..])
  }

  /** `.filter(s -> !s.isEmpty())`, keeping order. */
  function NonEmpty(xs: seq<string>): (r: seq<string>)
    ensures multiset(r) == multiset(xs)["" := 0]
    ensures forall i :: 0 <= i < |r| ==> r[i] != "" && r[i] in xs
    ensures |r| <= |xs|
  {
    if |xs| == 0 then []
    else
      var r := (if xs[0] == "" then [] else [xs[0]]) + NonEmpty(xs[1..]);
      assert xs == [xs[0]] + xs[1..];
      r
  }

  /** The characters a category may never contain. */
  predicate Clean(s: string) {
    '[' !in s && ']' !in s && ',' !in s
  }

  /** The comma-separated segments of a cell once the brackets are gone. */
  function Segments(raw: string): seq<string> {
    Split(Remove(Remove(raw, '['), ']'), ',')
  }

  /** What every parsed category is: non-empty, trimmed and free of
      brackets and commas. */
  predicate IsCategory(s: string) {
    s != "" && Trimmed(s) && Clean(s)
  }

  /** `ProductCsvImporter.parseCategories`: nothing for an absent or blank
      cell; otherwise the brackets are removed, the rest split on commas,
      each piece trimmed and the empty ones dropped. */
  function ParseCategories(raw: Option<string>): (r: seq<string>)
    ensures raw.None? || IsBlank(raw.value) ==> r == []
    ensures forall i :: 0 <= i < |r| ==> IsCategory(r[i])
  {
    if raw.None? || IsBlank(raw.value) then []
    else
      CategoriesClean(raw.value);
      CellCategories(raw.value)
  }

  /** The categories of a non-blank cell. */
  function CellCategories(raw: string): seq<string> {
    NonEmpty(TrimAll(CellPieces(raw)))
  }

  /** The pieces Java's `split` makes of a cell once the brackets are gone. */
  function CellPieces(raw: string): seq<string> {
    JavaSplit(Remove(Remove(raw, '['), ']'), ',')
  }

  lemma CategoriesClean(raw: string)
    ensures forall i :: 0 <= i < |CellCategories(raw)| ==> IsCategory(CellCategories(raw)[i])
  {
    var pieces := CellPieces(raw);
    PiecesClean(raw);
    TrimAllClean(pieces);
    NonEmptyCategories(TrimAll(pieces));
  }

  lemma PiecesClean(raw: string)
    ensures forall i :: 0 <= i < |CellPieces(raw)| ==> Clean(CellPieces(raw)[i])
  {
    var pieces := CellPieces(raw);
    var segments := Segments(raw);
    SegmentsClean(raw);
    assert pieces <= segments;
    forall i | 0 <= i < |pieces| ensures Clean(pieces[i]) {
      assert pieces[i] == segments[i];
    }
  }

  /** No segment holds a bracket or a comma. */
  lemma SegmentsClean(raw: string)
    ensures forall i :: 0 <= i < |Segments(raw)| ==> Clean(Segments(raw)[i])
  {
    var s := Remove(Remove(raw, '['), ']');
    var xs := Split(s, ',');
    forall i | 0 <= i < |xs| ensures Clean(xs[i]) {
      if '[' in xs[i] { JoinContains(xs, ',', i, '['); }
      if ']' in xs[i] { JoinContains(xs, ',', i, ']'); }
    }
  }

  /** Trimming keeps clean pieces clean. */
  lemma TrimAllClean(xs: seq<string>)
    requires forall i :: 0 <= i < |xs| ==> Clean(xs[i])
    ensures forall i :: 0 <= i < |xs| ==> Trimmed(TrimAll(xs)[i]) && Clean(TrimAll(xs)[i])
  {
    forall i | 0 <= i < |xs| ensures Clean(TrimAll(xs)[i]) {
      TrimChars(xs[i]);
    }
  }

  /** Dropping the empty strings from trimmed clean ones leaves categories. */
  lemma NonEmptyCategories(xs: seq<string>)
    requires forall i :: 0 <= i < |xs| ==> Trimmed(xs[i]) && Clean(xs[i])
    ensures forall i :: 0 <= i < |NonEmpty(xs)| ==> IsCategory(NonEmpty(xs)[i])
  {
    var r := NonEmpty(xs);
    forall i | 0 <= i < |r| ensures IsCategory(r[i]) {
      var k :| 0 <= k < |xs| && xs[k] == r[i];
    }
  }

  /** The categories are the non-empty trimmed segments in their input order:
      dropping the trailing empty pieces, as Java's `split` does, makes no
      difference once empty pieces are filtered out. */
  lemma ParseKeepsSegmentOrder(raw: string)
    requires !IsBlank(raw)
    ensures ParseCategories(Some(raw)) == NonEmpty(TrimAll(Segments(raw)))
  {
    var cleaned := Remove(Remove(raw, '['), ']');
    if ',' in cleaned {
      DropTrailingNoEffect(Split(cleaned, ','));
    } else {
      SplitWhole(cleaned, ',');
    }
  }

  lemma {:induction false} DropTrailingNoEffect(xs: seq<string>)
    ensures NonEmpty(TrimAll(DropTrailingEmpty(xs))) == NonEmpty(TrimAll(xs))
  {
    if |xs| > 0 && xs[|xs| - 1] == "" {
      var init := xs[..|xs| - 1];
      assert DropTrailingEmpty(xs) == DropTrailingEmpty(init);
      DropTrailingNoEffect(init);
      assert xs == init + [""];
      TrimAllAppend(init, [""]);
      assert TrimAll([""]) == [""];
      NonEmptyAppend(TrimAll(init), [""]);
      assert NonEmpty([""]) == [];
    }
  }

  lemma {:induction false} TrimAllAppend(a: seq<string>, b: seq<string>)
    ensures TrimAll(a + b) == TrimAll(a) + TrimAll(b)
  {
    if |a| == 0 {
      assert a + b == b;
    } else {
      assert (a + b)[1..] == a[1..] + b;
      TrimAllAppend(a[1..], b);
    }
  }

  /** The filter keeps the order of what it keeps: it distributes over
      concatenation, and a single element stays exactly when it is non-empty. */
  lemma {:induction false} NonEmptyAppend(a: seq<string>, b: seq<string>)
    ensures NonEmpty(a + b) == NonEmpty(a) + NonEmpty(b)
    ensures |a| == 1 ==> NonEmpty(a) == (if a[0] == "" then [] else a)
  {
    if |a| > 0 {
      var h := if a[0] == "" then [] else [a[0]];
      assert (a + b)[0] == a[0] && (a + b)[1..] == a[1..] + b;
      assert NonEmpty(a + b) == h + NonEmpty(a[1..] + b);
      assert NonEmpty(a) == h + NonEmpty(a[1..]);
      NonEmptyAppend(a[1..], b);
      ConcatAssoc(h, NonEmpty(a[1..]), NonEmpty(b));
      if |a| == 1 {
        assert a[1..] == [];
      }
    } else {
      assert a + b == b;
    }
  }

  /** Parsing is idempotent: the comma-join of a parse result parses back to
      the same list. */
  lemma ParseJoinRoundTrip(raw: Option<string>)
    ensures var cats := ParseCategories(raw);
            ParseCategories(Some(Join(cats, ','))) == cats
  {
    var cats := ParseCategories(raw);
    if |cats| > 0 {
      ParseClean(cats);
    }
  }

  /** A list of non-empty, trimmed, clean strings parses back from its join. */
  lemma ParseClean(cats: seq<string>)
    requires |cats| > 0
    requires forall i :: 0 <= i < |cats| ==> IsCategory(cats[i])
    ensures ParseCategories(Some(Join(cats, ','))) == cats
  {
    var s := Join(cats, ',');
    JoinOfCategories(cats);
    assert Remove(s, '[') == s && Remove(s, ']') == s;
    TrimAllTrimmed(cats);
    ParsePieces(s, cats);
  }

  /** The comma-join of categories has content and no bracket. */
  lemma JoinOfCategories(cats: seq<string>)
    requires |cats| > 0
    requires forall i :: 0 <= i < |cats| ==> IsCategory(cats[i])
    ensures var s := Join(cats, ',');
            !IsBlank(s) && '[' !in s && ']' !in s
  {
    var s := Join(cats, ',');
    JoinStartsWithFirst(cats, ',');
    assert s[0] == cats[0][0];
    forall c | c in s ensures c != '[' && c != ']' {
      JoinChars(cats, ',', c);
    }
  }

  /** A cell whose bracket-free text is the comma-join of pieces with content
      parses to the trimmed pieces, in order. */
  lemma ParsePieces(s: string, ps: seq<string>)
    requires !IsBlank(s) && |ps| > 0
    requires forall i :: 0 <= i < |ps| ==> !IsBlank(ps[i]) && Clean(ps[i])
    requires Remove(Remove(s, '['), ']') == Join(ps, ',')
    ensures ParseCategories(Some(s)) == TrimAll(ps)
  {
    assert Segments(s) == ps by {
      SplitJoin(ps, ',');
    }
    var t := TrimAll(ps);
    forall i | 0 <= i < |t| ensures t[i] != "" {
      assert t[i] == Trim(ps[i]);
    }
    NonEmptyAll(t);
    ParseKeepsSegmentOrder(s);
  }

  /** The list form the catalogue files use, `[a, b, c]`: the brackets go and
      the pieces come back trimmed, in order. */
  lemma ParseBracketed(ps: seq<string>)
    requires |ps| > 0
    requires forall i :: 0 <= i < |ps| ==> !IsBlank(ps[i]) && Clean(ps[i])
    ensures ParseCategories(Some("[" + Join(ps, ',') + "]")) == TrimAll(ps)
  {
    var j := Join(ps, ',');
    var s := "[" + j + "]";
    assert s[0] == '[';
    forall c | c in j ensures c != '[' && c != ']' {
      JoinChars(ps, ',', c);
    }
    StripBrackets(j);
    ParsePieces(s, ps);
  }

  lemma StripBrackets(j: string)
    requires '[' !in j && ']' !in j
    ensures Remove(Remove("[" + j + "]", '['), ']') == j
  {
    StripOpen(j);
    StripClose(j);
  }

  lemma StripOpen(j: string)
    requires '[' !in j && ']' !in j
    ensures Remove("[" + j + "]", '[') == j + "]"
  {
    var t := j + "]";
    assert '[' !in t by {
      assert forall i :: 0 <= i < |t| ==> t[i] == (if i < |j| then j[i] else ']');
    }
    RemoveAppend("[", t, '[');
    assert Remove("[", '[') == "" && Remove(t, '[') == t;
    ConcatAssoc("[", j, "]");
  }

  lemma StripClose(j: string)
    requires '[' !in j && ']' !in j
    ensures Remove(j + "]", ']') == j
  {
    RemoveAppend(j, "]", ']');
    RemoveAppend("]", "", ']');
  }

  lemma {:induction false} TrimAllTrimmed(xs: seq<string>)
    requires forall i :: 0 <= i < |xs| ==> Trimmed(xs[i])
    ensures TrimAll(xs) == xs
  {
    if |xs| > 0 {
      TrimAllTrimmed(xs[1..]);
      TrimTrimmed(xs[0]);
      assert xs == [xs[0]] + xs[1..];
    }
  }

  lemma {:induction false} NonEmptyAll(xs: seq<string>)
    requires forall i :: 0 <= i < |xs| ==> xs[i] != ""
    ensures NonEmpty(xs) == xs
  {
    if |xs| > 0 {
      NonEmptyAll(xs[1..]);
      assert xs == [xs[0]] + xs[1..];
    }
  }

  /** `Stream.of(...).filter(s -> !s.isBlank())`. */
  function NonBlank(xs: seq<string>): (r: seq<string>)
    ensures forall i :: 0 <= i < |r| ==> !IsBlank(r[i]) && r[i] in xs
    ensures |r| == 0 <==> forall i :: 0 <= i < |xs| ==> IsBlank(xs[i])
  {
    if |xs| == 0 then []
    else (if IsBlank(xs[0]) then [] else [xs[0]]) + NonBlank(xs[1..])
  }

  /** The filter keeps every non-blank part as often as it occurs and no
      blank part. */
  lemma {:induction false} NonBlankCounts(xs: seq<string>, x: string)
    ensures multiset(NonBlank(xs))[x] == if IsBlank(x) then 0 else multiset(xs)[x]
  {
    if |xs| > 0 {
      var h := if IsBlank(xs[0]) then [] else [xs[0]];
      assert xs == [xs[0]] + xs[1..];
      NonBlankCons(xs[0], xs[1..]);
      NonBlankCounts(xs[1..], x);
      assert multiset(NonBlank(xs)) == multiset(h) + multiset(NonBlank(xs[1..]));
      assert multiset(xs) == multiset([xs[0]]) + multiset(xs[1..]);
    }
  }

  lemma NonBlankCons(x: string, xs: seq<string>)
    ensures NonBlank([x] + xs) == (if IsBlank(x) then [] else [x]) + NonBlank(xs)
  {
    assert ([x] + xs)[1..] == xs;
  }

  /** The `combinedText` of `ingestRecord`: title, description, item details
      and the space-joined categories, blank parts dropped, the rest joined
      with single spaces. It is empty exactly when every part is blank. */
  function CombinedText(title: string, description: string, itemDetails: string,
                        categories: seq<string>): (r: string)
    ensures |r| == 0 <==> (IsBlank(title) && IsBlank(description) && IsBlank(itemDetails)
                           && IsBlank(Join(categories, ' ')))
  {
    var parts := [title, description, itemDetails, Join(categories, ' ')];
    var kept := NonBlank(parts);
    assert parts[0] == title && parts[1] == description && parts[2] == itemDetails
           && parts[3] == Join(categories, ' ');
    if |kept| > 0 then
      JoinStartsWithFirst(kept, ' ');
      assert !IsBlank(kept[0]);
      assert |Join(kept, ' ')| >= |kept[0]| > 0;
      Join(kept, ' ')
    else
      Join(kept, ' ')
  }

  /** The same text built the way `Collectors.joining(" ")` does, part by
      part: a space goes in front of every kept part but the first. */
  method JoinNonBlank(parts: seq<string>) returns (text: string)
    ensures text == Join(NonBlank(parts), ' ')
  {
    text := "";
    var kept: seq<string> := [];
    var i := 0;
    while i < |parts|
      invariant 0 <= i <= |parts|
      invariant kept == NonBlank(parts[..i])
      invariant text == Join(kept, ' ')
    {
      var part := parts[i];
      assert parts[..i + 1] == parts[..i] + [part];
      JoinNonBlankStep(parts[..i], part);
      if !IsBlank(part) {
        text := if |kept| > 0 then text + [' '] + part else part;
        kept := kept + [part];
      }
      i := i + 1;
    }
    assert parts[..i] == parts;
  }

  /** One step of the joining loop: a blank part changes nothing, and a kept
      part is appended, after a space unless it is the first. */
  lemma JoinNonBlankStep(prefix: seq<string>, part: string)
    ensures var kept := NonBlank(prefix);
            && NonBlank(prefix + [part]) == (if IsBlank(part) then kept else kept + [part])
            && Join(NonBlank(prefix + [part]), ' ')
               == if IsBlank(part) then Join(kept, ' ')
                  else if |kept| == 0 then part
                  else Join(kept, ' ') + [' '] + part
  {
    NonBlankAppend(prefix, [part]);
    JoinAppend(NonBlank(prefix), part, ' ');
  }

  /** The filter keeps the order of what it keeps: it distributes over
      concatenation, and a single part stays exactly when it is not blank. */
  lemma {:induction false} NonBlankAppend(a: seq<string>, b: seq<string>)
    ensures NonBlank(a + b) == NonBlank(a) + NonBlank(b)
    ensures |a| == 1 ==> NonBlank(a) == (if IsBlank(a[0]) then [] else a)
  {
    if |a| > 0 {
      var h := if IsBlank(a[0]) then [] else [a[0]];
      assert a == [a[0]] + a[1..];
      assert a + b == [a[0]] + (a[1..] + b);
      NonBlankCons(a[0], a[1..] + b);
      NonBlankCons(a[0], a[1..]);
      NonBlankAppend(a[1..], b);
      ConcatAssoc(h, NonBlank(a[1..]), NonBlank(b));
      if |a| == 1 {
        assert a[1..] == [];
      }
    } else {
      assert a + b == b;
    }
  }

  lemma {:induction false} JoinAppend(xs: seq<string>, x: string, sep: char)
    ensures Join(xs + [x], sep) == if |xs| == 0 then x else Join(xs, sep) + [sep] + x
  {
    if |xs| > 1 {
      assert (xs + [x])[1..] == xs[1..] + [x];
      JoinAppend(xs[1..], x, sep);
    } else if |xs| == 1 {
      assert (xs + [x])[1..] == [x];
    }
  }

  /** When every part has content the text is the four parts in order with
      one space between neighbours. */
  lemma CombinedTextAllPresent(title: string, description: string, itemDetails: string,
                               categories: seq<string>)
    requires !IsBlank(title) && !IsBlank(description) && !IsBlank(itemDetails)
    requires !IsBlank(Join(categories, ' '))
    ensures CombinedText(title, description, itemDetails, categories)
            == title + " " + description + " " + itemDetails + " " + Join(categories, ' ')
  {
    var c := Join(categories, ' ');
    var parts := [title, description, itemDetails, c];
    NonBlankCons(c, []);
    NonBlankCons(itemDetails, [c]);
    NonBlankCons(description, [itemDetails, c]);
    NonBlankCons(title, [description, itemDetails, c]);
    assert NonBlank(parts) == parts;
    JoinFour(title, description, itemDetails, c, ' ');
  }

  lemma JoinFour(a: string, b: string, c: string, d: string, sep: char)
    ensures Join([a, b, c, d], sep) == a + [sep] + b + [sep] + c + [sep] + d
  {
    assert [c, d][1..] == [d];
    assert Join([c, d], sep) == c + [sep] + d;
    assert [b, c, d][1..] == [c, d];
    assert Join([b, c, d], sep) == b + [sep] + (c + [sep] + d);
    assert [a, b, c, d][1..] == [b, c, d];
    assert Join([a, b, c, d], sep) == a + [sep] + (b + [sep] + (c + [sep] + d));
  }

  /** A blank description and blank categories are skipped without leaving
      a double space: the text is the title and the item details, one space
      apart. */
  lemma CombinedTextSkipsBlank(title: string, description: string, itemDetails: string,
                               categories: seq<string>)
    requires !IsBlank(title) && IsBlank(description) && !IsBlank(itemDetails)
    requires IsBlank(Join(categories, ' '))
    ensures CombinedText(title, description, itemDetails, categories) == title + " " + itemDetails
  {
    var c := Join(categories, ' ');
    NonBlankCons(c, []);
    NonBlankCons(itemDetails, [c]);
    NonBlankCons(description, [itemDetails, c]);
    NonBlankCons(title, [description, itemDetails, c]);
    assert NonBlank([title, description, itemDetails, c]) == [title, itemDetails];
    assert [title, itemDetails][1..] == [itemDetails];
    assert Join([title, itemDetails], ' ') == title + " " + itemDetails;
  }

  /** The properties `ingestRecord` stores for a record with the given id and
      embedding: the record's fields under the keys `fromNode` reads back,
      with the item details under `item_details`. */
  function StoredNode(record: map<string, string>, sourceId: string, embedding: seq<real>): (n: Node)
    ensures "embedding" in n && n.Keys == {"sourceId", "title", "description", "item_details",
                                         "text", "categories", "embedding"}
    ensures n["embedding"] == List(Nums(embedding))
  {
    var title := Field(record, "title");
    var description := Field(record, "description");
    var itemDetails := Field(record, "item_details");
    var categories := ParseCategories(Some(Field(record, "categories")));
    map[
      "sourceId" := Str(sourceId),
      "title" := Str(title),
      "description" := Str(description),
      "item_details" := Str(itemDetails),
      "text" := Str(CombinedText(title, description, itemDetails, categories)),
      "categories" := List(Strs(categories)),
      "embedding" := List(Nums(embedding))]
  }

  /** `record.getOrDefault(key, "")`. */
  function Field(record: map<string, string>, key: string): string {
    if key in record then record[key] else ""
  }

  function Strs(xs: seq<string>): (r: seq<Value>)
    ensures |r| == |xs| && forall i :: 0 <= i < |xs| ==> r[i] == Str(xs[i])
  {
    if |xs| == 0 then [] else [Str(xs[0])] + Strs(xs[1..])
  }

  /** What the importer writes, `fromNode` reads back: the record's fields,
      its parsed categories and its combined text. */
  lemma IngestRoundTrip(record: map<string, string>, sourceId: string, embedding: seq<real>)
    ensures var title := Field(record, "title");
            var description := Field(record, "description");
            var itemDetails := Field(record, "item_details");
            var categories := ParseCategories(Some(Field(record, "categories")));
            FromNode(StoredNode(record, sourceId, embedding))
            == Success(Product(sourceId, title, description, itemDetails, Strs(categories),
                               CombinedText(title, description, itemDetails, categories)))
  {
    var title := Field(record, "title");
    var description := Field(record, "description");
    var itemDetails := Field(record, "item_details");
    var categories := ParseCategories(Some(Field(record, "categories")));
    ReadWrittenNode(sourceId, title, description, itemDetails,
                    CombinedText(title, description, itemDetails, categories),
                    Strs(categories), Nums(embedding));
  }

  /** A node with the seven properties the importer writes reads back as the
      product with those fields. */
  lemma ReadWrittenNode(sourceId: string, title: string, description: string, itemDetails: string,
                        text: string, categories: seq<Value>, embedding: seq<Value>)
    ensures FromNode(map[
                       "sourceId" := Str(sourceId),
                       "title" := Str(title),
                       "description" := Str(description),
                       "item_details" := Str(itemDetails),
                       "text" := Str(text),
                       "categories" := List(categories),
                       "embedding" := List(embedding)])
            == Success(Product(sourceId, title, description, itemDetails, categories, text))
  {
    var n := map[
      "sourceId" := Str(sourceId),
      "title" := Str(title),
      "description" := Str(description),
      "item_details" := Str(itemDetails),
      "text" := Str(text),
      "categories" := List(categories),
      "embedding" := List(embedding)];
    var keys := StringKeys;
    assert keys == ["sourceId", "title", "description", "item_details", "text"];
    assert n["sourceId"].Str? && n["title"].Str? && n["description"].Str?
           && n["item_details"].Str? && n["text"].Str?;
    assert forall i :: 0 <= i < |keys| ==> Castable(n, keys[i]);
    FromNodeFields(n);
  }

  /** `ingestRecord` up to the write: the combined text is embedded through
      the caching client and the record's node is built with the vector. A
      failed embedding aborts the record and nothing is stored. */
  function IngestRecord(record: map<string, string>, sourceId: string,
                        client: EmbeddingClient.Client, remote: EmbeddingClient.Remote)
    : (r: Result<(Node, EmbeddingClient.Client)>)
    ensures var e := EmbeddingClient.Embed(client, remote, RecordText(record));
            && (r.Success? <==> e.result.Success?)
            && (r.Success? ==> r.value == (StoredNode(record, sourceId, e.result.value), e.client))
            && (r.Failure? ==> r.error == e.result.error)
  {
    var e := EmbeddingClient.Embed(client, remote, RecordText(record));
    var embedding :- e.result;
    Success((StoredNode(record, sourceId, embedding), e.client))
  }

  /** The combined text of a record, the text that is embedded. */
  function RecordText(record: map<string, string>): string {
    CombinedText(Field(record, "title"), Field(record, "description"), Field(record, "item_details"),
                 ParseCategories(Some(Field(record, "categories"))))
  }

  /** Two records with the same combined text share one remote call: the
      second is answered from the cache the first filled. */
  lemma SameTextEmbeddedOnce(first: map<string, string>, second: map<string, string>,
                             id1: string, id2: string,
                             client: EmbeddingClient.Client, remote: EmbeddingClient.Remote)
    requires RecordText(first) == RecordText(second)
    requires IngestRecord(first, id1, client, remote).Success?
    ensures var (n1, c1) := IngestRecord(first, id1, client, remote).value;
            && IngestRecord(second, id2, c1, remote).Success?
            && IngestRecord(second, id2, c1, remote).value.1 == c1
            && n1["embedding"] == IngestRecord(second, id2, c1, remote).value.0["embedding"]
  {
  }
}
