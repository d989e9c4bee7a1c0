/** The question bank: how the per-category question files are turned into
    question lists and category records at start-up (questions-loader.js).
    Reading the directory and parsing the JSON are outside the model: the
    loader is given the directory listing with each file's parsed content. */
module QuestionsLoader {
  import opened Wrappers
  import opened Js
  import opened Sorting

  /** One multiple-choice question; `correct` indexes `answers`. */
  datatype Question = Question(id: int, text: string, answers: seq<string>, correct: int)

  /** A category record as the loader builds it. */
  datatype Category = Category(
    id: string,
    displayName: string,
    description: string,
    icon: string,
    order: int,
    fileName: string)

  /** The `metadata` object of a new-format file. An absent field is None;
      JavaScript's `||` also replaces an empty string and an order of 0. */
  datatype Metadata = Metadata(
    categoryId: string,
    displayName: string,
    description: Option<string>,
    icon: Option<string>,
    order: Option<int>)

  /** What a file holds, as far as the loader looks at it. */
  datatype Parsed =
    | WithMetadata(metadata: Metadata, questions: seq<Question>)  // { metadata, questions }
    | QuestionArray(questions: seq<Question>)                     // legacy: a bare array
    | Unrecognised                                                // JSON of neither shape
    | Unreadable                                                  // read or parse error

  datatype DirEntry = DirEntry(name: string, content: Parsed)

  const DefaultIcon: string := "\U{1F4DA}"
  const DefaultOrder: int := 999

  const LegacyDisplayNames: map<string, string> := map[
    "friedrich-gymnasium" := "Friedrich-Gymnasium Freiburg",
    "allgemeinwissen" := "Allgemeinwissen",
    "geschichte" := "Geschichte",
    "wissenschaft" := "Wissenschaft",
    "sport" := "Sport",
    "geografie" := "Geografie",
    "kunst" := "Kunst & Kultur"]

  const LegacyIcons: map<string, string> := map[
    "friedrich-gymnasium" := "\U{1F3EB}",
    "allgemeinwissen" := "\U{1F30D}",
    "geschichte" := "\U{1F3DB}\U{FE0F}",
    "wissenschaft" := "\U{1F52C}",
    "sport" := "\U{26BD}",
    "geografie" := "\U{1F5FA}\U{FE0F}",
    "kunst" := "\U{1F3A8}"]

  /** The display name of a legacy category: the table's entry, or the id itself. */
  function DisplayNameFallback(id: string): (name: string)
    ensures id in LegacyDisplayNames ==> name == LegacyDisplayNames[id]
    ensures name == id <==> id !in LegacyDisplayNames
  {
    if id in LegacyDisplayNames then LegacyDisplayNames[id] else id
  }

  /** The icon of a legacy category: the table's entry, or the books emoji. */
  function IconFallback(id: string): (icon: string)
    ensures id in LegacyIcons ==> icon == LegacyIcons[id]
    ensures icon == DefaultIcon <==> id !in LegacyIcons
  {
    if id in LegacyIcons then LegacyIcons[id] else DefaultIcon
  }

  /** `s.replace(/^\d+_/, '')`: drops one leading run of digits and the
      underscore after it. */
  function StripOrderPrefix(s: string): string {
    var n := DigitRun(s, false);
    if 0 < n < |s| && s[n] == '_' then s[n + 1..] else s
  }

  /** The category id of a legacy file: `path.basename(file, '.json')` with
      the numeric ordering prefix removed. */
  function LegacyCategoryId(fileName: string): string {
    var base := if EndsWith(fileName, ".json") then fileName[..|fileName| - 5] else fileName;
    StripOrderPrefix(base)
  }

  lemma LegacyIdOfPrefixedName(prefix: string, id: string)
    requires |prefix| > 0 && forall i :: 0 <= i < |prefix| ==> IsDigit(prefix[i])
    ensures LegacyCategoryId(prefix + "_" + id + ".json") == id
  {
    var name := prefix + "_" + id + ".json";
    var base := prefix + "_" + id;
    assert EndsWith(name, ".json") && name[..|name| - 5] == base;
    var n := DigitRun(base, false);
    assert base[|prefix|] == '_';
    assert n == |prefix|;
    assert base[n + 1..] == id;
  }

  lemma LegacyIdOfPlainName(id: string)
    requires |id| == 0 || !IsDigit(id[0])
    ensures LegacyCategoryId(id + ".json") == id
  {
    var name := id + ".json";
    assert EndsWith(name, ".json") && name[..|name| - 5] == id;
  }

  /** JavaScript's `s || default` on an optional string. */
  function StringOr(s: Option<string>, default: string): string {
    if s.Some? && s.value != "" then s.value else default
  }

  /** JavaScript's `order || 999` on an optional number. */
  function OrderOr(order: Option<int>): int {
    if order.Some? && order.value != 0 then order.value else DefaultOrder
  }

  /** The category record and question list that one file contributes. */
  function Contribution(file: DirEntry): (r: Option<(Category, seq<Question>)>)
    ensures r.Some? <==> file.content.WithMetadata? || file.content.QuestionArray?
    ensures r.Some? ==> r.value.0.fileName == file.name && r.value.1 == file.content.questions
  {
    match file.content
    case WithMetadata(md, qs) =>
      Some((Category(md.categoryId, md.displayName, StringOr(md.description, ""),
                     StringOr(md.icon, DefaultIcon), OrderOr(md.order), file.name), qs))
    case QuestionArray(qs) =>
      var id := LegacyCategoryId(file.name);
      Some((Category(id, DisplayNameFallback(id), "Fragen zur Kategorie " + id,
                     IconFallback(id), DefaultOrder, file.name), qs))
    case _ => None
  }

  /** A new-format file keeps its metadata, with the defaults filled in:
      no description means an empty one, no icon the books emoji, and a
      missing or zero order becomes 999. */
  lemma NewFormatDefaults(name: string, md: Metadata, qs: seq<Question>)
    ensures var r := Contribution(DirEntry(name, WithMetadata(md, qs)));
      && r.Some?
      && r.value.0.id == md.categoryId && r.value.0.displayName == md.displayName
      && (md.description.None? ==> r.value.0.description == "")
      && (md.description.Some? ==> r.value.0.description == md.description.value)
      && (r.value.0.icon == DefaultIcon <==> md.icon.None? || md.icon.value in {"", DefaultIcon})
      && (md.icon.Some? && md.icon.value != "" ==> r.value.0.icon == md.icon.value)
      && r.value.0.order != 0
      && (md.order.Some? && md.order.value != 0 ==> r.value.0.order == md.order.value)
      && (md.order.None? || md.order.value == 0 ==> r.value.0.order == DefaultOrder)
  {
  }

  /** A legacy file's category is named after the file and sorts last. */
  lemma LegacyDefaults(name: string, qs: seq<Question>)
    ensures var r := Contribution(DirEntry(name, QuestionArray(qs)));
      var id := LegacyCategoryId(name);
      && r.Some?
      && r.value.0.id == id
      && r.value.0.order == DefaultOrder
      && r.value.0.description == "Fragen zur Kategorie " + id
      && (r.value.0.displayName == id <==> id !in LegacyDisplayNames)
      && (r.value.0.icon == DefaultIcon <==> id !in LegacyIcons)
  {
  }

  /** The categories, in file order, before sorting. */
  function Categories(files: seq<DirEntry>): seq<Category>
    decreases |files|
  {
    if |files| == 0 then []
    else
      var rest := Categories(files[..|files| - 1]);
      match Contribution(files[|files| - 1])
      case Some((c, _)) => rest + [c]
      case None => rest
  }

  /** The question lists by category id; a later file with the same id wins. */
  function Bank(files: seq<DirEntry>): map<string, seq<Question>>
    decreases |files|
  {
    if |files| == 0 then map[]
    else
      var rest := Bank(files[..|files| - 1]);
      match Contribution(files[|files| - 1])
      case Some((c, qs)) => rest[c.id := qs]
      case None => rest
  }

  /** The entries whose name ends in `.json`, in listing order. */
  function JsonOnly(listing: seq<DirEntry>): (r: seq<DirEntry>)
    ensures forall f :: f in r <==> f in listing && EndsWith(f.name, ".json")
    ensures forall f :: multiset(r)[f] == if EndsWith(f.name, ".json") then multiset(listing)[f] else 0
    decreases |listing|
  {
    if |listing| == 0 then []
    else
      var rest := JsonOnly(listing[1..]);
      assert forall f :: f in listing <==> f == listing[0] || f in listing[1..];
      assert listing == [listing[0]] + listing[1..];
      if EndsWith(listing[0].name, ".json") then [listing[0]] + rest else rest
  }

  predicate NameBefore(a: DirEntry, b: DirEntry) {
    StringLess(a.name, b.name)
  }

  predicate OrderBefore(a: Category, b: Category) {
    a.order < b.order
  }

  /** The files the loader visits: `.filter(f => f.endsWith('.json')).sort()`. */
  function JsonFiles(listing: seq<DirEntry>): seq<DirEntry> {
    SortBy(JsonOnly(listing), NameBefore)
  }

  /** `loadQuestions` over a directory listing. */
  method LoadQuestions(listing: seq<DirEntry>) returns (questions: map<string, seq<Question>>, categories: seq<Category>)
    ensures questions == Bank(JsonFiles(listing))
    ensures categories == SortBy(Categories(JsonFiles(listing)), OrderBefore)
  {
    var files := JsonFiles(listing);
    questions := map[];
    var loaded: seq<Category> := [];
    for i := 0 to |files|
      invariant questions == Bank(files[..i])
      invariant loaded == Categories(files[..i])
    {
      assert files[..i + 1][..i] == files[..i];
      match Contribution(files[i])
      case Some((category, qs)) =>
        questions := questions[category.id := qs];
        loaded := loaded + [category];
      case None =>
    }
    assert files[..|files|] == files;
    categories := SortBy(loaded, OrderBefore);
  }

  // ---------------------------------------------------------------------------
  // Properties of the loaded bank

  lemma NameBeforeOrder()
    ensures StrictWeakOrder(NameBefore)
  {
    forall a: DirEntry, b: DirEntry ensures NameBefore(a, b) ==> !NameBefore(b, a) {
      StringLessAsymmetric(a.name, b.name);
    }
    forall a: DirEntry, b: DirEntry, c: DirEntry
      ensures !NameBefore(a, b) && !NameBefore(b, c) ==> !NameBefore(a, c)
    {
      StringLessSplits(a.name, b.name, c.name);
    }
  }

  lemma OrderBeforeOrder()
    ensures StrictWeakOrder(OrderBefore)
  {
  }

  /** The visited files are the listing's `.json` files in name order. */
  lemma JsonFilesSorted(listing: seq<DirEntry>)
    ensures SortedBy(JsonFiles(listing), NameBefore)
    ensures multiset(JsonFiles(listing)) == multiset(JsonOnly(listing))
  {
    NameBeforeOrder();
    SortBySorted(JsonOnly(listing), NameBefore);
  }

  /** Every category record comes from one of the files. */
  lemma {:induction false} CategoriesFromFiles(files: seq<DirEntry>)
    ensures forall c :: c in Categories(files) ==>
      exists p :: 0 <= p < |files| && files[p].name == c.fileName
    decreases |files|
  {
    if |files| > 0 {
      var init := files[..|files| - 1];
      CategoriesFromFiles(init);
      forall c | c in Categories(files)
        ensures exists p :: 0 <= p < |files| && files[p].name == c.fileName
      {
        if c in Categories(init) {
          var p :| 0 <= p < |init| && init[p].name == c.fileName;
          assert files[p] == init[p];
        } else {
          assert files[|files| - 1].name == c.fileName;
        }
      }
    }
  }

  predicate FileNameNotAfter(a: Category, b: Category) {
    !StringLess(b.fileName, a.fileName)
  }

  /** Files visited in name order give category records in file-name order. */
  lemma {:induction false} CategoriesInFileOrder(files: seq<DirEntry>)
    requires SortedBy(files, NameBefore)
    ensures Chained(Categories(files), FileNameNotAfter)
    decreases |files|
  {
    if |files| > 0 {
      var init := files[..|files| - 1];
      var last := files[|files| - 1];
      assert SortedBy(init, NameBefore);
      CategoriesInFileOrder(init);
      CategoriesFromFiles(init);
      var cs := Categories(files);
      var rest := Categories(init);
      if Contribution(last).Some? {
        forall i, j | 0 <= i < j < |cs| ensures FileNameNotAfter(cs[i], cs[j]) {
          if j == |cs| - 1 {
            assert cs[i] in rest;
            var p :| 0 <= p < |init| && init[p].name == cs[i].fileName;
            assert files[p] == init[p];
            assert !NameBefore(last, files[p]);
          } else {
            assert cs[i] == rest[i] && cs[j] == rest[j];
          }
        }
      }
    }
  }

  /** The loaded categories are in non-decreasing `order`; categories with the
      same order keep the file-name order, since the sort is stable and the
      files were visited by name. */
  lemma LoadedCategoriesOrdered(listing: seq<DirEntry>)
    ensures var cs := SortBy(Categories(JsonFiles(listing)), OrderBefore);
      && (forall i, j :: 0 <= i < j < |cs| ==> cs[i].order <= cs[j].order)
      && (forall i, j :: 0 <= i < j < |cs| && cs[i].order == cs[j].order ==>
            !StringLess(cs[j].fileName, cs[i].fileName))
      && multiset(cs) == multiset(Categories(JsonFiles(listing)))
  {
    var files := JsonFiles(listing);
    var cs := SortBy(Categories(files), OrderBefore);
    OrderBeforeOrder();
    SortBySorted(Categories(files), OrderBefore);
    JsonFilesSorted(listing);
    CategoriesInFileOrder(files);
    SortByStable(Categories(files), OrderBefore, FileNameNotAfter);
  }

  /** Every listed category has a question list, and every question list a
      category record. */
  lemma {:induction false} BankMatchesCategories(files: seq<DirEntry>)
    ensures Bank(files).Keys == set c | c in Categories(files) :: c.id
    decreases |files|
  {
    if |files| > 0 {
      BankMatchesCategories(files[..|files| - 1]);
    }
  }

  /** The number of files that contribute a category. */
  function UsableCount(files: seq<DirEntry>): nat
    decreases |files|
  {
    if |files| == 0 then 0
    else UsableCount(files[..|files| - 1]) + (if Contribution(files[|files| - 1]).Some? then 1 else 0)
  }

  /** Every usable file's record is loaded, one record per usable file. */
  lemma {:induction false} CategoriesComplete(files: seq<DirEntry>)
    ensures |Categories(files)| == UsableCount(files)
    ensures forall p :: 0 <= p < |files| && Contribution(files[p]).Some? ==>
      Contribution(files[p]).value.0 in Categories(files)
    decreases |files|
  {
    if |files| > 0 {
      var init := files[..|files| - 1];
      CategoriesComplete(init);
      forall p | 0 <= p < |files| && Contribution(files[p]).Some?
        ensures Contribution(files[p]).value.0 in Categories(files)
      {
        if p < |files| - 1 {
          assert files[p] == init[p];
          assert Contribution(init[p]).value.0 in Categories(init);
        }
      }
    }
  }

  /** A usable file's questions are the bank's list for its id, unless a
      later usable file has the same id. */
  lemma {:induction false} BankLastWins(files: seq<DirEntry>, p: int)
    requires 0 <= p < |files| && Contribution(files[p]).Some?
    requires forall q :: p < q < |files| && Contribution(files[q]).Some? ==>
      Contribution(files[q]).value.0.id != Contribution(files[p]).value.0.id
    ensures Contribution(files[p]).value.0.id in Bank(files)
    ensures Bank(files)[Contribution(files[p]).value.0.id] == files[p].content.questions
    decreases |files|
  {
    if p < |files| - 1 {
      var init := files[..|files| - 1];
      assert files[p] == init[p];
      forall q | p < q < |init| && Contribution(init[q]).Some?
        ensures Contribution(init[q]).value.0.id != Contribution(init[p]).value.0.id
      {
        assert init[q] == files[q];
      }
      BankLastWins(init, p);
    }
  }

  /** A file of neither shape (or one that fails to parse) contributes
      nothing, and the files after it are still loaded. */
  lemma {:induction false} UnusableFileSkipped(before: seq<DirEntry>, bad: DirEntry, after: seq<DirEntry>)
    requires Contribution(bad).None?
    ensures Categories(before + [bad] + after) == Categories(before + after)
    ensures Bank(before + [bad] + after) == Bank(before + after)
    decreases |after|
  {
    var whole := before + [bad] + after;
    if |after| == 0 {
      assert whole[..|whole| - 1] == before;
      assert before + after == before;
    } else {
      var init := after[..|after| - 1];
      UnusableFileSkipped(before, bad, init);
      assert whole[..|whole| - 1] == before + [bad] + init;
      assert (before + after)[..|before + after| - 1] == before + init;
      assert whole[|whole| - 1] == (before + after)[|before + after| - 1];
    }
  }

  // ---------------------------------------------------------------------------
  // Adding a question

  /** The largest id in a non-empty question list (`Math.max(...ids)`). */
  function MaxId(qs: seq<Question>): (m: int)
    requires |qs| > 0
    ensures forall k :: 0 <= k < |qs| ==> qs[k].id <= m
    ensures exists k :: 0 <= k < |qs| && qs[k].id == m
    decreases |qs|
  {
    if |qs| == 1 then qs[0].id
    else
      var m := MaxId(qs[1..]);
      assert forall k :: 1 <= k < |qs| ==> qs[k] == qs[1..][k - 1];
      if qs[0].id >= m then qs[0].id else m
  }

  /** The id a new question receives: one more than the largest, or 1. */
  function NextId(qs: seq<Question>): (id: int)
    ensures forall k :: 0 <= k < |qs| ==> qs[k].id < id
    ensures |qs| == 0 ==> id == 1
    ensures |qs| > 0 ==> exists k :: 0 <= k < |qs| && qs[k].id == id - 1
  {
    (if |qs| > 0 then MaxId(qs) else 0) + 1
  }

  /** What the category file holds before the append: no file, a JSON array
      of questions, JSON of another kind (an object such as a new-format file,
      a string, a number, `null`), or text that cannot be read or parsed. */
  datatype StoredFile = Missing | Stored(questions: seq<Question>) | NotAList | Broken

  /** `addQuestionToCategory`: give the question the next id and append it.
      Returns whether it succeeded and the list written back to the file.
      A file that is not an array fails at `questions.push` (or already at
      `.length` or `.map`), and the exception is caught, so nothing is
      written. */
  method AddQuestionToCategory(file: StoredFile, question: Question)
    returns (ok: bool, written: seq<Question>, added: Question)
    ensures ok <==> file.Missing? || file.Stored?
    ensures ok ==> var existing := if file.Stored? then file.questions else [];
      && added == question.(id := NextId(existing))
      && written == existing + [added]
      && forall k :: 0 <= k < |existing| ==> existing[k].id < added.id
    ensures !ok ==> written == [] && added == question
  {
    if file.Broken? || file.NotAList? {
      return false, [], question;
    }
    var questions: seq<Question> := [];
    if file.Stored? {
      questions := file.questions;
    }
    var maxId := if |questions| > 0 then MaxId(questions) else 0;
    added := question.(id := maxId + 1);
    questions := questions + [added];
    ok, written := true, questions;
  }
}
