/**
  Regenerating the translation files: every language keeps its translations of the words that are still used.
  A Go map is an object here, since a copy of `I18nData` that shared its inner maps would let one language
  overwrite the words of the next.
 */
module Translations {
  import opened TranslationFile
  import opened Wrappers

  /** The words of one namespace, as the inner `map[string]string`. */
  class Pairs {
    var words: Words

    constructor ()
      ensures words == map[]
    {
      words := map[];
    }
  }

  /** A `map[string]map[string]string`. */
  class I18nData {
    var namespaces: map<string, Pairs>

    constructor ()
      ensures namespaces == map[]
    {
      namespaces := map[];
    }

    ghost function Value(): Data
      reads this, namespaces.Values
    {
      map namespace | namespace in namespaces :: namespaces[namespace].words
    }

    /** No two namespaces share their words. */
    ghost predicate Separate()
      reads this
    {
      forall a, b | a in namespaces && b in namespaces && a != b :: namespaces[a] != namespaces[b]
    }

    ghost predicate Apart(other: I18nData)
      reads this, other
    {
      namespaces.Values !! other.namespaces.Values
    }
  }

  /** Exactly the fresh words, each with its old translation where there is one. */
  function Merge(words: Data, stored: Data): Data {
    map namespace | namespace in words :: MergeWords(words[namespace], if namespace in stored then stored[namespace] else map[])
  }

  function MergeWords(words: Words, stored: Words): Words {
    map key | key in words :: if key in stored then stored[key] else words[key]
  }

  method CopyI18nData(src: I18nData) returns (dst: I18nData)
    ensures fresh(dst) && fresh(dst.namespaces.Values) && dst.Separate()
    ensures dst.Value() == src.Value()
  {
    dst := new I18nData();
    var todo := src.namespaces.Keys;
    while todo != {}
      invariant todo <= src.namespaces.Keys && dst.namespaces.Keys == src.namespaces.Keys - todo
      invariant fresh(dst) && (forall n | n in dst.namespaces :: fresh(dst.namespaces[n])) && dst.Separate()
      invariant forall n | n in dst.namespaces :: dst.namespaces[n].words == src.namespaces[n].words
    {
      var namespace :| namespace in todo;
      todo := todo - {namespace};
      var copy := new Pairs();
      CopyPairs(copy, src.namespaces[namespace]);
      dst.namespaces := dst.namespaces[namespace := copy];
    }
  }

  /** The inner loop of `copyI18nData`, over a map just made. */
  method CopyPairs(copy: Pairs, pairs: Pairs)
    requires copy != pairs && copy.words == map[]
    modifies copy
    ensures copy.words == pairs.words
  {
    var keys := pairs.words.Keys;
    while keys != {}
      invariant keys <= pairs.words.Keys
      invariant copy.words == map key | key in pairs.words && key !in keys :: pairs.words[key]
    {
      var key :| key in keys;
      keys := keys - {key};
      copy.words := copy.words[key := pairs.words[key]];
    }
  }

  /** The merge of the namespaces in `done` only. */
  function MergePart(words: Data, stored: Data, done: set<string>): Data {
    map n | n in words :: if n in done && n in stored then MergeWords(words[n], stored[n]) else words[n]
  }

  lemma PartStep(words: Data, stored: Data, done: set<string>, n: string)
    requires n in stored && n !in done
    ensures MergePart(words, stored, done + {n})
         == if n !in words then MergePart(words, stored, done)
            else MergePart(words, stored, done)[n := MergeWords(MergePart(words, stored, done)[n], stored[n])]
  {
  }

  lemma PartAll(words: Data, stored: Data)
    ensures MergePart(words, stored, {}) == words
    ensures MergePart(words, stored, stored.Keys) == Merge(words, stored)
  {
    assert forall w: Words :: MergeWords(w, map[]) == w;
  }

  method ApplyData(data1: I18nData, data2: I18nData)
    requires data1.Separate() && data1.Apart(data2)
    modifies data1.namespaces.Values
    ensures data1.Value() == Merge(old(data1.Value()), old(data2.Value()))
  {
    ghost var before, second := data1.Value(), data2.Value();
    PartAll(before, second);
    var todo := data2.namespaces.Keys;
    assert second.Keys - todo == {};
    while todo != {}
      invariant todo <= second.Keys && data2.Value() == second
      invariant data1.Value() == MergePart(before, second, second.Keys - todo)
    {
      var namespace :| namespace in todo;
      PartStep(before, second, second.Keys - todo, namespace);
      assert second.Keys - (todo - {namespace}) == second.Keys - todo + {namespace};
      todo := todo - {namespace};
      ApplyNamespace(data1, data2, namespace);
    }
    assert second.Keys - todo == second.Keys;
  }

  /** The body of the outer loop of `applyData`. */
  method ApplyNamespace(data1: I18nData, data2: I18nData, namespace: string)
    requires data1.Separate() && data1.Apart(data2) && namespace in data2.namespaces
    modifies data1.namespaces.Values
    ensures data2.Value() == old(data2.Value())
    ensures data1.Value() == if namespace !in data1.namespaces then old(data1.Value())
                             else old(data1.Value())[namespace := MergeWords(old(data1.Value())[namespace], old(data2.Value())[namespace])]
  {
    if namespace !in data1.namespaces {
      return;
    }
    var pairs1, pairs2 := data1.namespaces[namespace], data2.namespaces[namespace];
    assert pairs1 in data1.namespaces.Values && pairs2 in data2.namespaces.Values;
    ApplyPairs(pairs1, pairs2);
    assert forall n | n in data2.namespaces :: data2.namespaces[n] in data2.namespaces.Values;
  }

  /** The inner loop of `applyData`. */
  method ApplyPairs(pairs1: Pairs, pairs2: Pairs)
    requires pairs1 != pairs2
    modifies pairs1
    ensures pairs1.words == MergeWords(old(pairs1.words), pairs2.words)
  {
    ghost var before := pairs1.words;
    var keys := pairs2.words.Keys;
    while keys != {}
      invariant keys <= pairs2.words.Keys && pairs1.words.Keys == before.Keys
      invariant forall key | key in before ::
                  pairs1.words[key] == if key in pairs2.words && key !in keys then pairs2.words[key] else before[key]
    {
      var key :| key in keys;
      keys := keys - {key};
      if key in pairs1.words {
        pairs1.words := pairs1.words[key := pairs2.words[key]];
      }
    }
  }

  /** Data whose objects are all as they were have the same value. */
  twostate lemma SameValue(data: I18nData)
    requires unchanged(data) && forall n | n in data.namespaces :: unchanged(data.namespaces[n])
    ensures data.Value() == old(data.Value())
  {
  }

  /** The shared data is copied first, so it stays as it was. */
  method MergeIntoCopy(newData: I18nData, oldData: I18nData) returns (dataCopy: I18nData)
    ensures fresh(dataCopy)
    ensures newData.Value() == old(newData.Value())
    ensures dataCopy.Value() == Merge(old(newData.Value()), old(oldData.Value()))
  {
    dataCopy := CopyI18nData(newData);
    SameValue(oldData);
    ApplyData(dataCopy, oldData);
    SameValue(newData);
  }

  function FilePath(category: string, language: string): string {
    if category == "backend" then "../i18n/locales/" + language + "/data.json"
    else "../web/src/locales/" + language + "/data.json"
  }

  /** The files of the backend are beside this package, all others below the web client. */
  lemma PathsOfCategories(category: string, language: string)
    ensures FilePath("backend", language) == "../i18n/locales/" + language + "/data.json"
    ensures category != "backend" ==> FilePath(category, language) == "../web/src/locales/" + language + "/data.json"
  {
  }

  lemma MiddleIsUnique(head: string, a: string, b: string, tail: string)
    requires head + a + tail == head + b + tail
    ensures a == b
  {
    assert |a| == |b|;
    assert (head + a + tail)[|head|..|head| + |a|] == a;
    assert (head + b + tail)[|head|..|head| + |b|] == b;
  }

  lemma CategoriesDiffer(a: string, b: string)
    ensures "../i18n/locales/" + a + "/data.json" != "../web/src/locales/" + b + "/data.json"
  {
    assert ("../i18n/locales/" + a + "/data.json")[3] == 'i';
    assert ("../web/src/locales/" + b + "/data.json")[3] == 'w';
  }

  /** Two languages, or the two categories, never share a file; all categories but "backend" do. */
  lemma OwnFile(category: string, language: string, category': string, language': string)
    ensures FilePath(category, language) == FilePath(category', language')
       <==> language == language' && (category == "backend" <==> category' == "backend")
  {
    var p, q := FilePath(category, language), FilePath(category', language');
    if (category == "backend") != (category' == "backend") {
      CategoriesDiffer(language, language');
      CategoriesDiffer(language', language);
    } else if p == q {
      MiddleIsUnique(if category == "backend" then "../i18n/locales/" else "../web/src/locales/",
                     language, language', "/data.json");
    }
  }

  /** The files after one language was regenerated; none if its file cannot be read, on which the code panics. */
  function Replaced(category: string, language: string, words: Data, files: map<string, string>): Option<map<string, string>> {
    var path := FilePath(category, language);
    if path !in files then None
    else match ReadText(files[path])
      case None => None
      case Some(stored) => Some(files[path := WriteText(Merge(words, stored))])
  }

  lemma ReplacedValue(category: string, language: string, words: Data, files: map<string, string>, stored: Data)
    requires FilePath(category, language) in files && ReadText(files[FilePath(category, language)]) == Some(stored)
    ensures Replaced(category, language, words, files)
         == Some(files[FilePath(category, language) := WriteText(Merge(words, stored))])
  {
  }

  /** The files after the languages were regenerated one after the other. */
  function Applied(category: string, languages: seq<string>, words: Data, files: map<string, string>): Option<map<string, string>> {
    if languages == [] then Some(files)
    else match Replaced(category, languages[0], words, files)
      case None => None
      case Some(next) => Applied(category, languages[1..], words, next)
  }

  /** What a file is regenerated to. */
  function NewText(words: Data, text: string): string {
    match ReadText(text)
    case None => text
    case Some(stored) => WriteText(Merge(words, stored))
  }

  /** The files after those at `paths` were each regenerated from what they held. */
  function Regenerated(paths: set<string>, words: Data, files: map<string, string>): map<string, string> {
    map path | path in files :: if path in paths then NewText(words, files[path]) else files[path]
  }

  function Paths(category: string, languages: seq<string>): set<string> {
    set l | l in languages :: FilePath(category, l)
  }

  predicate Has(data: Data, namespace: string, key: string) {
    namespace in data && key in data[namespace]
  }

  /** Exactly the fresh words are kept, each with its old translation if it has one. */
  lemma MergeAt(words: Data, stored: Data, namespace: string, key: string)
    ensures Has(Merge(words, stored), namespace, key) <==> Has(words, namespace, key)
    ensures Has(words, namespace, key) ==>
              Merge(words, stored)[namespace][key] ==
              if Has(stored, namespace, key) then stored[namespace][key] else words[namespace][key]
  {
  }

  lemma MergeTwice(words: Data, stored: Data)
    ensures Merge(words, Merge(words, stored)) == Merge(words, stored)
  {
    var once := Merge(words, stored);
    forall namespace | namespace in words
      ensures MergeWords(words[namespace], once[namespace]) == once[namespace]
    {
    }
  }

  /** Regenerating a text twice is regenerating it once, whether it can be read back or not. */
  lemma NewTextTwice(words: Data, text: string)
    ensures NewText(words, NewText(words, text)) == NewText(words, text)
  {
    if ReadText(text).Some? {
      var stored := ReadText(text).value;
      ReadBack(Merge(words, stored));
      MergeTwice(words, stored);
    }
  }

  lemma RegenerateMore(some: set<string>, more: set<string>, words: Data, files: map<string, string>)
    ensures Regenerated(more, words, Regenerated(some, words, files)) == Regenerated(some + more, words, files)
  {
    forall path | path in files
      ensures Regenerated(more, words, Regenerated(some, words, files))[path] == Regenerated(some + more, words, files)[path]
    {
      NewTextTwice(words, files[path]);
    }
  }

  lemma FirstPath(category: string, languages: seq<string>)
    requires languages != []
    ensures Paths(category, languages) == {FilePath(category, languages[0])} + Paths(category, languages[1..])
  {
    assert forall l :: l in languages <==> l == languages[0] || l in languages[1..];
  }

  lemma ReplacedIsRegenerated(category: string, language: string, words: Data, files: map<string, string>)
    requires Replaced(category, language, words, files).Some?
    ensures Replaced(category, language, words, files).value == Regenerated({FilePath(category, language)}, words, files)
  {
  }

  /**
    Whatever the order and however often a language is listed, a run that gets through gives each listed
    language the fresh words with its own old translations, and changes no other file.
   */
  lemma {:induction false} AppliedInAnyOrder(category: string, languages: seq<string>, words: Data, files: map<string, string>)
    requires Applied(category, languages, words, files).Some?
    ensures Applied(category, languages, words, files).value == Regenerated(Paths(category, languages), words, files)
    decreases |languages|
  {
    if languages == [] {
      assert files == Regenerated({}, words, files) && Paths(category, languages) == {};
    } else {
      var next := Replaced(category, languages[0], words, files).value;
      AppliedInAnyOrder(category, languages[1..], words, next);
      ReplacedIsRegenerated(category, languages[0], words, files);
      RegenerateMore({FilePath(category, languages[0])}, Paths(category, languages[1..]), words, files);
      FirstPath(category, languages);
    }
  }

  predicate IsReadable(category: string, language: string, files: map<string, string>) {
    FilePath(category, language) in files && ReadText(files[FilePath(category, language)]).Some?
  }

  /** A language whose file cannot be read stops every run that lists it. */
  lemma {:induction false} UnreadableStops(category: string, languages: seq<string>, words: Data, files: map<string, string>,
                                           language: string)
    requires language in languages && !IsReadable(category, language, files)
    ensures Applied(category, languages, words, files) == None
    decreases |languages|
  {
    var first := Replaced(category, languages[0], words, files);
    if first.Some? {
      assert FilePath(category, languages[0]) != FilePath(category, language);
      assert language in languages[1..];
      UnreadableStops(category, languages[1..], words, first.value, language);
    }
  }

  /** A list of different languages gets through if and only if all their files can be read. */
  lemma {:induction false} FirstRun(category: string, languages: seq<string>, words: Data, files: map<string, string>)
    requires forall i, j | 0 <= i < j < |languages| :: languages[i] != languages[j]
    ensures Applied(category, languages, words, files).Some? <==> forall l | l in languages :: IsReadable(category, l, files)
    decreases |languages|
  {
    if exists l :: l in languages && !IsReadable(category, l, files) {
      var l :| l in languages && !IsReadable(category, l, files);
      UnreadableStops(category, languages, words, files, l);
    } else if languages != [] {
      assert languages[0] in languages && IsReadable(category, languages[0], files);
      var next := Replaced(category, languages[0], words, files).value;
      forall l | l in languages[1..]
        ensures IsReadable(category, l, next)
      {
        assert l in languages && IsReadable(category, l, files);
        OwnFile(category, l, category, languages[0]);
      }
      FirstRun(category, languages[1..], words, next);
    }
  }

  /** What a file is regenerated to can be read again: no string of it has a backslash directly before `u0026`. */
  predicate StaysReadable(category: string, language: string, words: Data, files: map<string, string>) {
    IsReadable(category, language, files) && IsClean(Merge(words, ReadText(files[FilePath(category, language)]).value))
  }

  lemma {:induction false} NothingToChange(category: string, languages: seq<string>, words: Data, files: map<string, string>)
    requires forall l | l in languages :: IsReadable(category, l, files)
                                          && NewText(words, files[FilePath(category, l)]) == files[FilePath(category, l)]
    ensures Applied(category, languages, words, files) == Some(files)
    decreases |languages|
  {
    if languages != [] {
      assert languages[0] in languages && IsReadable(category, languages[0], files);
      var path := FilePath(category, languages[0]);
      assert files[path := files[path]] == files;
      NothingToChange(category, languages[1..], words, files);
    }
  }

  lemma ReadableAgain(category: string, language: string, words: Data, files: map<string, string>, once: map<string, string>)
    requires FilePath(category, language) in files && FilePath(category, language) in once
    requires IsReadable(category, language, files)
    requires once[FilePath(category, language)] == NewText(words, files[FilePath(category, language)])
    ensures IsReadable(category, language, once) <==> StaysReadable(category, language, words, files)
  {
    ReadBack(Merge(words, ReadText(files[FilePath(category, language)]).value));
  }

  /**
    After a run, another one over the same languages in any order changes nothing if what each file was
    regenerated to can be read again, and panics otherwise.
   */
  lemma SecondRunChangesNothing(category: string, languages: seq<string>, again: seq<string>, words: Data,
                                files: map<string, string>)
    requires forall l :: l in languages <==> l in again
    requires Applied(category, languages, words, files).Some?
    ensures var once := Applied(category, languages, words, files).value;
            Applied(category, again, words, once)
            == if forall l | l in languages :: StaysReadable(category, l, words, files) then Some(once) else None
  {
    var once := Applied(category, languages, words, files).value;
    AppliedInAnyOrder(category, languages, words, files);
    forall l | l in languages
      ensures IsReadable(category, l, files) && FilePath(category, l) in once
      ensures once[FilePath(category, l)] == NewText(words, files[FilePath(category, l)])
      ensures IsReadable(category, l, once) <==> StaysReadable(category, l, words, files)
      ensures NewText(words, once[FilePath(category, l)]) == once[FilePath(category, l)]
    {
      if !IsReadable(category, l, files) {
        UnreadableStops(category, languages, words, files, l);
      }
      assert FilePath(category, l) in Paths(category, languages);
      ReadableAgain(category, l, words, files, once);
      NewTextTwice(words, files[FilePath(category, l)]);
    }
    if forall l | l in languages :: StaysReadable(category, l, words, files) {
      NothingToChange(category, again, words, once);
    } else {
      var l :| l in languages && !StaysReadable(category, l, words, files);
      UnreadableStops(category, again, words, once, l);
    }
  }

  /** Two runs over the same languages in different orders that get through give the same files. */
  lemma OrderDoesNotMatter(category: string, languages: seq<string>, other: seq<string>, words: Data,
                           files: map<string, string>)
    requires forall l :: l in languages <==> l in other
    requires Applied(category, languages, words, files).Some? && Applied(category, other, words, files).Some?
    ensures Applied(category, languages, words, files) == Applied(category, other, words, files)
  {
    AppliedInAnyOrder(category, languages, words, files);
    AppliedInAnyOrder(category, other, words, files);
    assert Paths(category, languages) == Paths(category, other);
  }

  /** Words read from the program are their own translation. */
  predicate FromSource(data: Data) {
    forall namespace | namespace in data :: forall key | key in data[namespace] :: data[namespace][key] == key
  }

  ghost predicate Survives(first: Data, second: Data, stored: Data) {
    forall namespace, key | Has(second, namespace, key) && Has(stored, namespace, key) ::
      Has(first, namespace, key) || stored[namespace][key] == key
  }

  lemma SurvivesAt(first: Data, second: Data, stored: Data, namespace: string, key: string)
    requires FromSource(first) && FromSource(second) && Has(second, namespace, key)
    ensures Has(Merge(second, Merge(first, stored)), namespace, key) && Has(Merge(second, stored), namespace, key)
    ensures Merge(second, Merge(first, stored))[namespace][key] == Merge(second, stored)[namespace][key]
       <==> (Has(stored, namespace, key) ==> Has(first, namespace, key) || stored[namespace][key] == key)
  {
    MergeAt(second, stored, namespace, key);
    MergeAt(second, Merge(first, stored), namespace, key);
    if Has(first, namespace, key) {
      MergeAt(first, stored, namespace, key);
    }
  }

  lemma EqualWords(a: Data, b: Data)
    requires a.Keys == b.Keys
    requires forall n | n in a :: a[n].Keys == b[n].Keys
    requires forall n, key | Has(a, n, key) :: a[n][key] == b[n][key]
    ensures a == b
  {
    forall n | n in a
      ensures a[n] == b[n]
    {
      forall key | key in a[n]
        ensures a[n][key] == b[n][key]
      {
        assert Has(a, n, key);
      }
    }
  }

  /**
    Regenerating in between loses a translation just if its word was missing then: skipping the run in between
    gives the same file if and only if every translated word that is used in the end was used then too.
   */
  lemma TranslationsSurvive(first: Data, second: Data, stored: Data)
    requires FromSource(first) && FromSource(second)
    ensures Merge(second, Merge(first, stored)) == Merge(second, stored) <==> Survives(first, second, stored)
  {
    var through, direct := Merge(second, Merge(first, stored)), Merge(second, stored);
    forall n, key | Has(second, n, key)
      ensures Has(through, n, key) && Has(direct, n, key)
      ensures through[n][key] == direct[n][key]
         <==> (Has(stored, n, key) ==> Has(first, n, key) || stored[n][key] == key)
    {
      SurvivesAt(first, second, stored, n, key);
    }
    if Survives(first, second, stored) {
      forall n | n in through
        ensures through[n].Keys == direct[n].Keys
      {
      }
      EqualWords(through, direct);
    }
  }

  /** The translation files by path. */
  class Locales {
    var files: map<string, string>

    constructor (files: map<string, string>)
      ensures this.files == files
    {
      this.files := files;
    }

    /** None where the code panics. */
    method ReadI18nFile(category: string, language: string) returns (data: Option<I18nData>)
      ensures data.Some? <==> IsReadable(category, language, files)
      ensures data.Some? ==> fresh(data.value) && fresh(data.value.namespaces.Values)
      ensures data.Some? ==> Some(data.value.Value()) == ReadText(files[FilePath(category, language)])
    {
      if FilePath(category, language) !in files {
        return None;
      }
      var content := ReadText(files[FilePath(category, language)]);
      if content == None {
        return None;
      }
      var read := ToObjects(content.value);
      data := Some(read);
    }

    method WriteI18nFile(category: string, language: string, data: I18nData)
      modifies this
      ensures files == old(files)[FilePath(category, language) := WriteText(old(data.Value()))]
    {
      var text := StructToJsonFormatted(data);
      files := files[FilePath(category, language) := text];
    }

    /** Nothing is written if the file cannot be read; the shared fresh data is as it was in any case. */
    method ApplyToOtherLanguage(category: string, language: string, newData: I18nData) returns (ok: bool)
      modifies this
      ensures newData.Value() == old(newData.Value())
      ensures match Replaced(category, language, old(newData.Value()), old(files))
              case None => !ok && files == old(files)
              case Some(replaced) => ok && files == replaced
    {
      ghost var words, before := newData.Value(), files;
      var oldData := ReadI18nFile(category, language);
      SameValue(newData);
      if oldData == None {
        return false;
      }
      ghost var stored := oldData.value.Value();
      WriteMerged(category, language, newData, oldData.value);
      ReplacedValue(category, language, words, before, stored);
      ok := true;
    }

    method WriteMerged(category: string, language: string, newData: I18nData, oldData: I18nData)
      modifies this
      ensures newData.Value() == old(newData.Value())
      ensures files == old(files)[FilePath(category, language) := WriteText(Merge(old(newData.Value()), old(oldData.Value())))]
    {
      var dataCopy := MergeIntoCopy(newData, oldData);
      WriteI18nFile(category, language, dataCopy);
      SameValue(newData);
    }

    /** The generation of one category, language by language, up to the first file that cannot be read. */
    method Generate(category: string, languages: seq<string>, newData: I18nData) returns (ok: bool)
      modifies this
      ensures newData.Value() == old(newData.Value())
      ensures ok <==> Applied(category, languages, old(newData.Value()), old(files)).Some?
      ensures ok ==> files == Regenerated(Paths(category, languages), old(newData.Value()), old(files))
    {
      ghost var words, before := newData.Value(), files;
      for i := 0 to |languages|
        invariant newData.Value() == words
        invariant Applied(category, languages[i..], words, files) == Applied(category, languages, words, before)
      {
        assert languages[i..][0] == languages[i] && languages[i..][1..] == languages[i + 1..];
        ok := ApplyToOtherLanguage(category, languages[i], newData);
        if !ok {
          return;
        }
      }
      AppliedInAnyOrder(category, languages, words, before);
      ok := true;
    }
  }

  /** Decoded data, every namespace an object of its own. */
  method ToObjects(content: Data) returns (data: I18nData)
    ensures fresh(data) && fresh(data.namespaces.Values) && data.Value() == content
  {
    data := new I18nData();
    var todo := content.Keys;
    while todo != {}
      invariant todo <= content.Keys && data.namespaces.Keys == content.Keys - todo
      invariant fresh(data) && forall n | n in data.namespaces :: fresh(data.namespaces[n])
      invariant forall n | n in data.namespaces :: data.namespaces[n].words == content[n]
    {
      var namespace :| namespace in todo;
      todo := todo - {namespace};
      var pairs := new Pairs();
      pairs.words := content[namespace];
      data.namespaces := data.namespaces[namespace := pairs];
    }
  }

  method StructToJsonFormatted(data: I18nData) returns (text: string)
    ensures text == WriteText(data.Value())
  {
    var content := FromObjects(data);
    text := WriteText(content);
  }

  method FromObjects(data: I18nData) returns (content: Data)
    ensures content == data.Value()
  {
    content := map[];
    var todo := data.namespaces.Keys;
    while todo != {}
      invariant todo <= data.namespaces.Keys && content.Keys == data.namespaces.Keys - todo
      invariant forall n | n in content :: content[n] == data.namespaces[n].words
    {
      var namespace :| namespace in todo;
      todo := todo - {namespace};
      content := content[namespace := data.namespaces[namespace].words];
    }
  }
}
