/**
 * The translation store (backend/services/firestore.py): a nested local
 * table `{"fr": {phrase: {language: translation}}}` used when Firestore is
 * not configured or does not connect, the Firestore answers as parameters
 * otherwise, the fixed language metadata and the contact messages.
 */
module Firestore {
  import opened Wrappers
  import opened Chars
  import Dict
  import Decimal
  import opened JsonValues

  /** The translations of one phrase, by language code. */
  type Entry = Dict.Dict<string, string>

  /** The local table: top-level key (normally only `"fr"`), then phrase, then language. */
  type Table = Dict.Dict<string, Dict.Dict<string, Entry>>

  /** What reading `data/language.json` gave. */
  datatype FileOutcome =
    | Parsed(raw: Table)   // the file parsed as JSON
    | Missing              // FileNotFoundError
    | Unreadable           // any other error

  // ---------------------------------------------------------------- loading

  /** `{k.lower(): v for k, v in entries.items()}`: a later key that lower-cases alike overwrites the value in place. */
  function LowerKeys(entries: Dict.Dict<string, Entry>): Dict.Dict<string, Entry> {
    if entries == [] then []
    else
      var n := |entries| - 1;
      Dict.Set(LowerKeys(entries[..n]), Lower(entries[n].0), entries[n].1)
  }

  /** The value of the last entry whose key lower-cases to `q`. */
  function LastWithLowerKey(entries: Dict.Dict<string, Entry>, q: string): Option<Entry> {
    if entries == [] then None
    else
      var n := |entries| - 1;
      if Lower(entries[n].0) == q then Some(entries[n].1) else LastWithLowerKey(entries[..n], q)
  }

  /** Looking up a lower-case phrase in the loaded table finds the last spelling of it in the file. */
  lemma {:induction false} LowerKeysGet(entries: Dict.Dict<string, Entry>, q: string)
    ensures Dict.Get(LowerKeys(entries), q) == LastWithLowerKey(entries, q)
  {
    if entries != [] {
      var n := |entries| - 1;
      LowerKeysGet(entries[..n], q);
      Dict.GetSet(LowerKeys(entries[..n]), Lower(entries[n].0), entries[n].1, q);
    }
  }

  /** Every key of the loaded table is already in lower case. */
  lemma {:induction false} LowerKeysAreLower(entries: Dict.Dict<string, Entry>)
    ensures forall k :: k in Dict.Keys(LowerKeys(entries)) ==> Lower(k) == k
  {
    if entries != [] {
      var n := |entries| - 1;
      LowerKeysAreLower(entries[..n]);
      LowerIdempotent(entries[n].0);
    }
  }

  /** `load_local_translations`. */
  function LoadTable(file: FileOutcome): Table {
    match file
    case Parsed(raw) =>
      (match Dict.Get(raw, "fr")
       case Some(fr) => [("fr", LowerKeys(fr))]
       case None => raw)
    case Missing => DEFAULT_TABLE
    case Unreadable => [("fr", [])]
  }

  // ---------------------------------------------------------------- local lookup and upsert

  /** `local_translations.get("fr", {})`. */
  function French(table: Table): Dict.Dict<string, Entry> {
    Dict.Get(table, "fr").GetOr([])
  }

  /** `_get_local_translation`: the translation if both the phrase and the language are there. */
  function LocalLookup(table: Table, textLower: string, language: string): Option<string> {
    match Dict.Get(French(table), textLower)
    case Some(entry) => Dict.Get(entry, language)
    case None => None
  }

  /**
   * `_save_local_translation` on the table: create `"fr"` and the phrase's
   * entry if missing, then set the one `[phrase][language]` slot.
   */
  function Upsert(table: Table, textLower: string, language: string, translation: string): Table {
    var fr := French(table);
    var entry := Dict.Get(fr, textLower).GetOr([]);
    Dict.Set(table, "fr", Dict.Set(fr, textLower, Dict.Set(entry, language, translation)))
  }

  /** After an upsert the slot holds the new translation, and every other slot is as before. */
  lemma UpsertLookup(table: Table, textLower: string, language: string, translation: string, p: string, l: string)
    ensures LocalLookup(Upsert(table, textLower, language, translation), p, l) ==
      if p == textLower && l == language then Some(translation) else LocalLookup(table, p, l)
  {
    var fr := French(table);
    var entry := Dict.Get(fr, textLower).GetOr([]);
    var entry' := Dict.Set(entry, language, translation);
    var fr' := Dict.Set(fr, textLower, entry');
    Dict.GetSet(table, "fr", fr', "fr");
    Dict.GetSet(fr, textLower, entry', p);
    Dict.GetSet(entry, language, translation, l);
  }

  /** The top-level keys other than `"fr"` are untouched by an upsert. */
  lemma UpsertKeepsOtherTopLevel(table: Table, textLower: string, language: string, translation: string, k: string)
    requires k != "fr"
    ensures Dict.Get(Upsert(table, textLower, language, translation), k) == Dict.Get(table, k)
  {
    var fr := French(table);
    var entry := Dict.Get(fr, textLower).GetOr([]);
    Dict.GetSet(table, "fr", Dict.Set(fr, textLower, Dict.Set(entry, language, translation)), k);
  }

  /** A save under one spelling is found under any spelling with the same lower case. */
  lemma SaveThenGetAnyCase(table: Table, saved: string, asked: string, language: string, translation: string)
    requires Lower(saved) == Lower(asked)
    ensures LocalLookup(Upsert(table, Lower(saved), language, translation), Lower(asked), language) == Some(translation)
  {
    UpsertLookup(table, Lower(saved), language, translation, Lower(asked), language);
  }

  /** Upserting the same slot twice keeps only the second translation. */
  lemma UpsertTwice(table: Table, textLower: string, language: string, first: string, second: string, p: string, l: string)
    ensures LocalLookup(Upsert(Upsert(table, textLower, language, first), textLower, language, second), p, l) ==
      LocalLookup(Upsert(table, textLower, language, second), p, l)
  {
    UpsertLookup(Upsert(table, textLower, language, first), textLower, language, second, p, l);
    UpsertLookup(table, textLower, language, first, p, l);
    UpsertLookup(table, textLower, language, second, p, l);
  }

  /** A file without `"fr"` is kept as it is, and then no lookup finds anything. */
  lemma NoFrenchKeyMisses(raw: Table, p: string, l: string)
    requires "fr" !in Dict.Keys(raw)
    ensures LoadTable(Parsed(raw)) == raw
    ensures LocalLookup(LoadTable(Parsed(raw)), p, l) == None
  {
  }

  /**
   * With a `"fr"` key, a phrase is found exactly under its lower-case form,
   * with the entry of its last spelling in the file.
   */
  lemma LoadedLookup(raw: Table, fr: Dict.Dict<string, Entry>, text: string, l: string)
    requires Dict.Get(raw, "fr") == Some(fr)
    ensures LocalLookup(LoadTable(Parsed(raw)), Lower(text), l) ==
      match LastWithLowerKey(fr, Lower(text)) case Some(e) => Dict.Get(e, l) case None => None
    ensures forall k :: k in Dict.Keys(French(LoadTable(Parsed(raw)))) ==> Lower(k) == k
  {
    LowerKeysGet(fr, Lower(text));
    LowerKeysAreLower(fr);
  }

  // ---------------------------------------------------------------- language metadata

  datatype LanguageInfo = LanguageInfo(code: string, name: string, region: string, codeGtts: string)

  /** `_language_metadata`, in declaration order. */
  const LANGUAGE_METADATA: Dict.Dict<string, LanguageInfo> := [
    ("bété", LanguageInfo("bété", "Bété", "Côte d'Ivoire", "fr")),
    ("baoulé", LanguageInfo("baoulé", "Baoulé", "Côte d'Ivoire", "fr")),
    ("mooré", LanguageInfo("mooré", "Mooré", "Burkina Faso", "fr")),
    ("agni", LanguageInfo("agni", "Agni", "Côte d'Ivoire", "fr")),
    ("fr", LanguageInfo("fr", "Français", "Global", "fr"))
  ]

  /** Python's string `<=`: code point by code point, a prefix first. */
  predicate LexLe(a: string, b: string) {
    if a == [] then true
    else if b == [] then false
    else if a[0] != b[0] then a[0] < b[0]
    else LexLe(a[1..], b[1..])
  }

  lemma {:induction false} LexLeTotal(a: string, b: string)
    ensures LexLe(a, b) || LexLe(b, a)
  {
    if a != [] && b != [] && a[0] == b[0] {
      LexLeTotal(a[1..], b[1..]);
    }
  }

  lemma {:induction false} LexLeTrans(a: string, b: string, c: string)
    requires LexLe(a, b) && LexLe(b, c)
    ensures LexLe(a, c)
  {
    if a != [] && b != [] && c != [] && a[0] == b[0] && b[0] == c[0] {
      LexLeTrans(a[1..], b[1..], c[1..]);
    }
  }

  predicate SortedByName(xs: seq<LanguageInfo>) {
    forall i, j :: 0 <= i < j < |xs| ==> LexLe(xs[i].name, xs[j].name)
  }

  /** Place `x` before the first element it does not come after. */
  function Insert(x: LanguageInfo, xs: seq<LanguageInfo>): seq<LanguageInfo> {
    if xs == [] then [x]
    else if LexLe(x.name, xs[0].name) then [x] + xs
    else [xs[0]] + Insert(x, xs[1..])
  }

  lemma {:induction false} InsertPermutes(x: LanguageInfo, xs: seq<LanguageInfo>)
    ensures multiset(Insert(x, xs)) == multiset(xs) + multiset{x}
  {
    if xs != [] && !LexLe(x.name, xs[0].name) {
      InsertPermutes(x, xs[1..]);
      assert xs == [xs[0]] + xs[1..];
    }
  }

  /** An element no later than `x` and than everything in `xs` is no later than anything in `Insert(x, xs)`. */
  lemma InsertLowerBound(y: LanguageInfo, x: LanguageInfo, xs: seq<LanguageInfo>)
    requires LexLe(y.name, x.name)
    requires forall k :: 0 <= k < |xs| ==> LexLe(y.name, xs[k].name)
    ensures forall k :: 0 <= k < |Insert(x, xs)| ==> LexLe(y.name, Insert(x, xs)[k].name)
  {
    InsertPermutes(x, xs);
    forall k | 0 <= k < |Insert(x, xs)| ensures LexLe(y.name, Insert(x, xs)[k].name) {
      var z := Insert(x, xs)[k];
      assert z in multiset(xs) + multiset{x};
      if z != x {
        assert z in xs;
      }
    }
  }

  /** Prepending an element no later than the head keeps a sequence sorted. */
  lemma ConsSorted(y: LanguageInfo, xs: seq<LanguageInfo>)
    requires SortedByName(xs)
    requires forall k :: 0 <= k < |xs| ==> LexLe(y.name, xs[k].name)
    ensures SortedByName([y] + xs)
  {
    var r := [y] + xs;
    forall i, j | 0 <= i < j < |r| ensures LexLe(r[i].name, r[j].name) {
      assert r[j] == xs[j - 1];
      if i > 0 {
        assert r[i] == xs[i - 1];
      }
    }
  }

  /** Something no later than the head of a sorted sequence is no later than all of it. */
  lemma HeadBound(x: LanguageInfo, xs: seq<LanguageInfo>)
    requires SortedByName(xs) && xs != [] && LexLe(x.name, xs[0].name)
    ensures forall k :: 0 <= k < |xs| ==> LexLe(x.name, xs[k].name)
  {
    forall k | 0 < k < |xs| ensures LexLe(x.name, xs[k].name) {
      LexLeTrans(x.name, xs[0].name, xs[k].name);
    }
  }

  lemma {:induction false} InsertSorted(x: LanguageInfo, xs: seq<LanguageInfo>)
    requires SortedByName(xs)
    ensures SortedByName(Insert(x, xs))
  {
    if xs == [] {
    } else if LexLe(x.name, xs[0].name) {
      HeadBound(x, xs);
      ConsSorted(x, xs);
    } else {
      LexLeTotal(x.name, xs[0].name);
      InsertSorted(x, xs[1..]);
      InsertLowerBound(xs[0], x, xs[1..]);
      ConsSorted(xs[0], Insert(x, xs[1..]));
    }
  }

  /** `sorted(values, key=name)`: insertion sort, stable. */
  function SortByName(xs: seq<LanguageInfo>): seq<LanguageInfo> {
    if xs == [] then [] else Insert(xs[0], SortByName(xs[1..]))
  }

  lemma {:induction false} SortByNameFacts(xs: seq<LanguageInfo>)
    ensures SortedByName(SortByName(xs)) && multiset(SortByName(xs)) == multiset(xs)
  {
    if xs != [] {
      SortByNameFacts(xs[1..]);
      InsertPermutes(xs[0], SortByName(xs[1..]));
      InsertSorted(xs[0], SortByName(xs[1..]));
      assert xs == [xs[0]] + xs[1..];
    }
  }

  /** The metadata values, in declaration order. */
  function Values(d: Dict.Dict<string, LanguageInfo>): (r: seq<LanguageInfo>)
    ensures |r| == |d| && forall i :: 0 <= i < |d| ==> r[i] == d[i].1
  {
    seq(|d|, i requires 0 <= i < |d| => d[i].1)
  }

  /** `get_supported_languages`. */
  function SupportedLanguages(): seq<LanguageInfo> {
    SortByName(Values(LANGUAGE_METADATA))
  }

  /** The five metadata entries, each once, ordered by name. */
  lemma SupportedLanguagesSorted()
    ensures SortedByName(SupportedLanguages())
    ensures multiset(SupportedLanguages()) == multiset(Values(LANGUAGE_METADATA))
    ensures |SupportedLanguages()| == 5
  {
    SortByNameFacts(Values(LANGUAGE_METADATA));
    assert |multiset(SupportedLanguages())| == |SupportedLanguages()|;
  }

  // ---------------------------------------------------------------- contact messages

  /** The record the contact route stores: the four form values as sent, a timestamp and a status. */
  datatype ContactMessage = ContactMessage(name: Json, email: Json, subject: Json, message: Json,
                                           timestamp: string, status: string)

  /** A locally stored message with the id it was given. */
  datatype StoredContact = StoredContact(id: string, data: ContactMessage)

  /** `f"contact_{n}"`. */
  function ContactId(n: nat): string {
    "contact_" + Decimal.NatToString(n)
  }

  /** Different numbers give different ids. */
  lemma ContactIdInjective(a: nat, b: nat)
    requires ContactId(a) == ContactId(b)
    ensures a == b
  {
    assert Decimal.NatToString(a) == ContactId(a)[8..];
    assert Decimal.NatToString(b) == ContactId(b)[8..];
    Decimal.NatToStringRoundTrip(a);
    Decimal.NatToStringRoundTrip(b);
  }

  /** A contacts file written only by this service: the i-th message has id `contact_{i+1}`. */
  predicate Numbered(contacts: seq<StoredContact>) {
    forall i :: 0 <= i < |contacts| ==> contacts[i].id == ContactId(i + 1)
  }

  /** In such a file no two messages share an id. */
  lemma NumberedIdsDistinct(contacts: seq<StoredContact>)
    requires Numbered(contacts)
    ensures forall i, j :: 0 <= i < j < |contacts| ==> contacts[i].id != contacts[j].id
  {
    forall i, j | 0 <= i < j < |contacts| ensures contacts[i].id != contacts[j].id {
      if contacts[i].id == contacts[j].id {
        ContactIdInjective(i + 1, j + 1);
      }
    }
  }

  // ---------------------------------------------------------------- the service

  class FirestoreService {
    /** `local_translations`. */
    var localTranslations: Table
    /** `use_local_data`. */
    var useLocalData: bool
    /** The messages of `data/contacts.json`. */
    var contacts: seq<StoredContact>

    /**
     * `__init__`: load the local table first, then use Firestore if
     * credentials are given (as JSON text, else as a file path) and the
     * client connects; in every other case use the local table.
     */
    constructor (file: FileOutcome, credentialsJson: string, credentialsPath: string, clientConnects: bool,
                 contactsFile: seq<StoredContact>)
      ensures localTranslations == LoadTable(file)
      ensures useLocalData <==> (credentialsJson == "" && credentialsPath == "") || !clientConnects
      ensures contacts == contactsFile
    {
      localTranslations := LoadTable(file);
      contacts := contactsFile;
      if credentialsJson != "" {
        useLocalData := !clientConnects;
      } else if credentialsPath != "" {
        useLocalData := !clientConnects;
      } else {
        useLocalData := true;
      }
    }

    /**
     * `get_translation`: the local lookup in local mode; otherwise the
     * Firestore answer `remote`, falling back to the local table when it is `None`.
     */
    function GetTranslation(text: string, targetLanguage: string, remote: Option<string>): (r: Option<string>)
      reads this
      ensures useLocalData || remote.None? ==> r == LocalLookup(localTranslations, Lower(text), targetLanguage)
      ensures !useLocalData && remote.Some? ==> r == remote
    {
      var textLower := Lower(text);
      if useLocalData then LocalLookup(localTranslations, textLower, targetLanguage)
      else if remote.None? then LocalLookup(localTranslations, textLower, targetLanguage)
      else remote
    }

    /**
     * `save_translation`: in local mode upsert the lower-cased phrase and
     * return true; otherwise return whether the Firestore write `remoteOk` succeeded.
     */
    method SaveTranslation(text: string, targetLanguage: string, translation: string, remoteOk: bool) returns (ok: bool)
      modifies this
      ensures useLocalData == old(useLocalData) && contacts == old(contacts)
      ensures useLocalData ==> ok && localTranslations == Upsert(old(localTranslations), Lower(text), targetLanguage, translation)
      ensures !useLocalData ==> ok == remoteOk && localTranslations == old(localTranslations)
    {
      var textLower := Lower(text);
      if useLocalData {
        ok := SaveLocalTranslation(textLower, targetLanguage, translation);
      } else {
        ok := remoteOk;
      }
    }

    /** `_save_local_translation`. */
    method SaveLocalTranslation(textLower: string, targetLanguage: string, translation: string) returns (ok: bool)
      modifies this
      ensures ok && useLocalData == old(useLocalData) && contacts == old(contacts)
      ensures localTranslations == Upsert(old(localTranslations), textLower, targetLanguage, translation)
    {
      var fr := French(localTranslations);
      if "fr" !in Dict.Keys(localTranslations) {
        localTranslations := Dict.Set(localTranslations, "fr", []);
        Dict.GetSet(old(localTranslations), "fr", [], "fr");
      }
      var entry := Dict.Get(fr, textLower).GetOr([]);
      if textLower !in Dict.Keys(fr) {
        fr := Dict.Set(fr, textLower, []);
      }
      fr := Dict.Set(fr, textLower, Dict.Set(entry, targetLanguage, translation));
      localTranslations := Dict.Set(localTranslations, "fr", fr);
      SetTwice(old(localTranslations), "fr", [], fr);
      SetTwice(French(old(localTranslations)), textLower, [], Dict.Set(entry, targetLanguage, translation));
      ok := true;
    }

    /** `update_translation_manual`: the same effect as `save_translation`. */
    method UpdateTranslationManual(frenchText: string, targetLanguage: string, newTranslation: string, remoteOk: bool)
      returns (ok: bool)
      modifies this
      ensures useLocalData == old(useLocalData) && contacts == old(contacts)
      ensures useLocalData ==> ok && localTranslations == Upsert(old(localTranslations), Lower(frenchText), targetLanguage, newTranslation)
      ensures !useLocalData ==> ok == remoteOk && localTranslations == old(localTranslations)
    {
      var textLower := Lower(frenchText);
      if useLocalData {
        ok := SaveLocalTranslation(textLower, targetLanguage, newTranslation);
      } else {
        ok := remoteOk;
      }
    }

    /**
     * `save_contact_message`: in local mode append the message to the
     * contacts file under `contact_{n+1}`; otherwise return what the
     * Firestore `add` gave, an id or the error it raised.
     */
    method SaveContactMessage(message: ContactMessage, remote: Result<string, string>) returns (r: Result<string, string>)
      modifies this
      ensures useLocalData == old(useLocalData) && localTranslations == old(localTranslations)
      ensures useLocalData ==>
        && r == Ok(ContactId(|old(contacts)| + 1))
        && contacts == old(contacts) + [StoredContact(ContactId(|old(contacts)| + 1), message)]
      ensures !useLocalData ==> r == remote && contacts == old(contacts)
      ensures old(Numbered(contacts)) ==> Numbered(contacts)
    {
      if useLocalData {
        var id := ContactId(|contacts| + 1);
        contacts := contacts + [StoredContact(id, message)];
        r := Ok(id);
      } else {
        r := remote;
      }
    }
  }

  /** Setting a key twice keeps the second value, at the position the first gave it. */
  lemma {:induction false} SetTwice<K, V>(d: Dict.Dict<K, V>, k: K, v1: V, v2: V)
    ensures Dict.Set(Dict.Set(d, k, v1), k, v2) == Dict.Set(d, k, v2)
  {
    if d != [] && d[0].0 != k {
      SetTwice(d[1..], k, v1, v2);
    }
  }

  /** The table written when `language.json` is missing. */
  const DEFAULT_TABLE: Table := [("fr", [
    ("bonjour", [("bété", "Akwaba"), ("baoulé", "Mo ho"), ("mooré", "Ne y windga"), ("agni", "Agni oh")]),
    ("comment allez-vous?", [("bété", "Bi ye né?"), ("baoulé", "Wo ho tè n?"), ("mooré", "Fo laafi?"), ("agni", "Aka kye?")]),
    ("merci", [("bété", "Akpé"), ("baoulé", "Mo"), ("mooré", "Barika"), ("agni", "Akpé")]),
    ("au revoir", [("bété", "Kan na"), ("baoulé", "Kan na"), ("mooré", "Nan kã pãalem"), ("agni", "Aka na")]),
    ("oui", [("bété", "Yoo"), ("baoulé", "Yoo"), ("mooré", "Yãa"), ("agni", "Aoo")]),
    ("non", [("bété", "Kou"), ("baoulé", "Kou"), ("mooré", "Ayi"), ("agni", "N'an")]),
    ("bonne nuit", [("bété", "Dè wèlè"), ("baoulé", "Dè wèlè"), ("mooré", "Sẽn-doogo"), ("agni", "Anwielé")]),
    ("je m'appelle", [("bété", "Man yi tɔ"), ("baoulé", "Man yi tɔ"), ("mooré", "Ma yiire"), ("agni", "Mina yɛ")]),
    ("où est", [("bété", "Kpá nyɛ"), ("baoulé", "Kpá nyɛ"), ("mooré", "Fo bee"), ("agni", "Wan ye?")]),
    ("combien", [("bété", "Kpé nyɛ"), ("baoulé", "Kpé nyɛ"), ("mooré", "Kpé nyɛ"), ("agni", "Kye o?")]),
    ("s'il vous plaît", [("bété", "Akpé o"), ("baoulé", "Akpé o"), ("mooré", "Tõnd pa"), ("agni", "Kpaa")]),
    ("excusez-moi", [("bété", "Pardon"), ("baoulé", "Pardon"), ("mooré", "Tõnd wii"), ("agni", "Pardon")]),
    ("ça va", [("bété", "Bi dè"), ("baoulé", "Wo dè"), ("mooré", "A laafi"), ("agni", "Aka ya?")]),
    ("boire", [("bété", "Nyɛ"), ("baoulé", "Nyɛ"), ("mooré", "Nyu"), ("agni", "Nyu")]),
    ("manger", [("bété", "Dyi"), ("baoulé", "Dyi"), ("mooré", "Di"), ("agni", "Di")]),
    ("dormir", [("bété", "Dè"), ("baoulé", "Dè"), ("mooré", "Sẽn"), ("agni", "Dè")]),
    ("maison", [("bété", "Kpè"), ("baoulé", "Kpè"), ("mooré", "Yiri"), ("agni", "Aso")]),
    ("eau", [("bété", "Nyɛ"), ("baoulé", "Nyɛ"), ("mooré", "Koom"), ("agni", "Nsu")]),
    ("argent", [("bété", "Kpɛ"), ("baoulé", "Kpɛ"), ("mooré", "Galaga"), ("agni", "Sika")]),
    ("travail", [("bété", "Wɔ"), ("baoulé", "Wɔ"), ("mooré", "Tuma"), ("agni", "Adwuma")])
  ])]
}
