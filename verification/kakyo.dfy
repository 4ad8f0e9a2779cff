/**
 * The Kakyo facade of lib/Kakyo.js: a table from locale to response set,
 * built from the locale files of one folder, looked up by `Get`, which renders
 * the template it finds, and rebuilt by `Reload`.
 *
 * Loading a file (`require`) is abstracted as a function `load` from a file
 * path to the (locale, responses) properties the file exports, in property
 * order; the directory listing is an input (`None` when it cannot be read).
 */
module Kakyo {
  import opened Wrappers
  import opened JsValue
  import Util

  /** Response key to response template. */
  type ResponseSet = map<string, string>

  /** Locale to its response set. */
  type Localizations = map<string, ResponseSet>

  /** What one locale file exports: its (locale, response set) properties in property order. */
  type LocaleModule = seq<(string, ResponseSet)>

  /** The errors Kakyo throws, each carrying the names its message embeds. */
  datatype Error =
    | NoLocale                                  // no locale passed and no default locale set
    | UnknownLocale(locale: string)             // no localisations grouped by this locale
    | UnknownResponse(key: string, locale: string)  // no (truthy) response under this key
    | MissingData(placeholder: string)          // the data has no truthy value for this placeholder
    | UnreadableDirectory(path: string)         // the folder listing failed, so there is nothing to iterate

  // ---------------------------------------------------------------------------
  // Merge specification
  // ---------------------------------------------------------------------------

  /** One locale declaration is added unless the locale is already in the table. */
  function Declare(table: Localizations, decl: (string, ResponseSet)): Localizations
  {
    if decl.0 in table then table else table[decl.0 := decl.1]
  }

  /** The declarations applied to `table` in order. */
  function MergeAll(table: Localizations, decls: seq<(string, ResponseSet)>): Localizations
    decreases |decls|
  {
    if decls == [] then table
    else Declare(MergeAll(table, decls[..|decls| - 1]), decls[|decls| - 1])
  }

  /** The declarations of all modules, module after module. */
  function Flatten(mods: seq<LocaleModule>): seq<(string, ResponseSet)>
    decreases |mods|
  {
    if mods == [] then [] else Flatten(mods[..|mods| - 1]) + mods[|mods| - 1]
  }

  /** What loading each entry of the listing gives, in listing order. */
  function Modules(folderPath: string, listing: seq<string>, load: string -> LocaleModule): seq<LocaleModule>
  {
    seq(|listing|, i requires 0 <= i < |listing| => load(Util.JoinPath(folderPath, listing[i])))
  }

  /** The locales some declaration names. */
  function Declared(decls: seq<(string, ResponseSet)>): set<string>
  {
    set d | d in decls :: d.0
  }

  /** Merging only adds locales: the new ones are exactly the declared ones. */
  lemma {:induction false} MergeKeys(table: Localizations, decls: seq<(string, ResponseSet)>)
    ensures MergeAll(table, decls).Keys == table.Keys + Declared(decls)
    decreases |decls|
  {
    if decls != [] {
      var init := decls[..|decls| - 1];
      MergeKeys(table, init);
      assert decls == init + [decls[|decls| - 1]];
      assert Declared(decls) == Declared(init) + {decls[|decls| - 1].0};
    }
  }

  /** A locale already in the table keeps its response set, whatever is declared later. */
  lemma {:induction false} MergeKeepsExisting(table: Localizations, decls: seq<(string, ResponseSet)>, locale: string)
    requires locale in table
    ensures locale in MergeAll(table, decls) && MergeAll(table, decls)[locale] == table[locale]
    decreases |decls|
  {
    if decls != [] {
      MergeKeepsExisting(table, decls[..|decls| - 1], locale);
    }
  }

  /**
   * A new locale gets the response set of its first declaration, as a whole:
   * later declarations of the same locale are dropped, even for other keys.
   */
  lemma {:induction false} MergeFirstWins(table: Localizations, decls: seq<(string, ResponseSet)>, k: nat)
    requires k < |decls| && decls[k].0 !in table
    requires forall j :: 0 <= j < k ==> decls[j].0 != decls[k].0
    ensures decls[k].0 in MergeAll(table, decls)
    ensures MergeAll(table, decls)[decls[k].0] == decls[k].1
    decreases |decls|
  {
    var init := decls[..|decls| - 1];
    if k < |decls| - 1 {
      MergeFirstWins(table, init, k);
    } else {
      MergeKeys(table, init);
    }
  }

  /** Merging two runs of declarations is merging the first, then the second. */
  lemma {:induction false} MergeAppend(table: Localizations, a: seq<(string, ResponseSet)>, b: seq<(string, ResponseSet)>)
    ensures MergeAll(table, a + b) == MergeAll(MergeAll(table, a), b)
    decreases |b|
  {
    if b == [] {
      assert a + b == a;
    } else {
      MergeAppend(table, a, b[..|b| - 1]);
      assert (a + b)[..|a + b| - 1] == a + b[..|b| - 1];
    }
  }

  lemma {:induction false} FlattenContents(mods: seq<LocaleModule>, d: (string, ResponseSet))
    ensures d in Flatten(mods) <==> exists i :: 0 <= i < |mods| && d in mods[i]
    decreases |mods|
  {
    if mods != [] {
      var init := mods[..|mods| - 1];
      FlattenContents(init, d);
      if d in Flatten(mods) && d !in mods[|mods| - 1] {
        var i :| 0 <= i < |init| && d in init[i];
        assert mods[i] == init[i];
      }
      if exists i :: 0 <= i < |mods| && d in mods[i] {
        var i :| 0 <= i < |mods| && d in mods[i];
        if i < |mods| - 1 {
          assert init[i] == mods[i];
        }
      }
    }
  }

  /** Built from an empty table, the locales are exactly those some loaded module declares. */
  lemma InitialLocales(mods: seq<LocaleModule>)
    ensures forall locale :: locale in MergeAll(map[], Flatten(mods)) <==>
      exists i, j :: 0 <= i < |mods| && 0 <= j < |mods[i]| && mods[i][j].0 == locale
  {
    MergeKeys(map[], Flatten(mods));
    forall locale
      ensures locale in Declared(Flatten(mods)) <==>
        exists i, j :: 0 <= i < |mods| && 0 <= j < |mods[i]| && mods[i][j].0 == locale
    {
      if locale in Declared(Flatten(mods)) {
        var d :| d in Flatten(mods) && d.0 == locale;
        FlattenContents(mods, d);
        var i :| 0 <= i < |mods| && d in mods[i];
        var j :| 0 <= j < |mods[i]| && mods[i][j] == d;
      }
      if exists i, j :: 0 <= i < |mods| && 0 <= j < |mods[i]| && mods[i][j].0 == locale {
        var i, j :| 0 <= i < |mods| && 0 <= j < |mods[i]| && mods[i][j].0 == locale;
        FlattenContents(mods, mods[i][j]);
      }
    }
  }

  /**
   * Two files declaring the same locale, say with disjoint keys: the locale
   * keeps only the first file's response set; no key of the second is added.
   */
  lemma NoPerKeyUnion(locale: string, first: ResponseSet, second: ResponseSet)
    ensures MergeAll(map[], Flatten([[(locale, first)], [(locale, second)]])) == map[locale := first]
  {
    var decls := Flatten([[(locale, first)], [(locale, second)]]);
    FlattenTwo([(locale, first)], [(locale, second)]);
    assert decls == [(locale, first), (locale, second)];
    MergeKeys(map[], decls);
    assert Declared(decls) == {locale};
    MergeFirstWins(map[], decls, 0);
  }

  lemma FlattenTwo(a: LocaleModule, b: LocaleModule)
    ensures Flatten([a, b]) == a + b
  {
    assert [a, b][..1] == [a];
    assert [a][..0] == [];
    assert Flatten([a]) == a;
  }

  // ---------------------------------------------------------------------------
  // The facade
  // ---------------------------------------------------------------------------

  /** `!!locale` for an optional locale argument: absent and `""` are falsy. */
  predicate Given(locale: Option<string>)
  {
    locale.Some? && locale.value != ""
  }

  class Kakyo {
    var folderPath: string
    var defaultLocale: Option<string>
    var localizations: Localizations

    /**
     * The default locale is either unset or a non-empty string: the
     * constructor keeps only a truthy one and nothing changes it afterwards.
     */
    predicate Valid()
      reads this
    {
      defaultLocale != Some("")
    }

    /**
     * Stores the folder, keeps `defaultLocale` only when it is truthy, and
     * builds the table from an empty one.
     */
    constructor (folderPath: string, defaultLocale: Option<string>, listing: seq<string>, load: string -> LocaleModule)
      ensures Valid()
      ensures this.folderPath == folderPath
      ensures this.defaultLocale == if Given(defaultLocale) then defaultLocale else None
      ensures localizations == MergeAll(map[], Flatten(Modules(folderPath, listing, load)))
    {
      this.folderPath := folderPath;
      this.defaultLocale := if Given(defaultLocale) then defaultLocale else None;
      localizations := map[];
      new;
      var ok := Initialize(Some(listing), load);
    }

    /**
     * Loads every file of the folder in listing order and adds each locale it
     * declares that the table does not hold yet. An unreadable folder leaves
     * nothing to iterate, which throws before the table is touched.
     */
    method Initialize(listing: Option<seq<string>>, load: string -> LocaleModule) returns (ok: bool)
      requires Valid()
      modifies this`localizations
      ensures Valid()
      ensures ok == listing.Some?
      ensures ok ==> localizations == MergeAll(old(localizations), Flatten(Modules(folderPath, listing.value, load)))
      ensures !ok ==> localizations == old(localizations)
    {
      var files := Util.ReadDirectory(folderPath, listing);
      if files.None? {
        return false;
      }
      ghost var mods := Modules(folderPath, listing.value, load);
      ghost var start := localizations;
      var paths := files.value;
      for i := 0 to |paths|
        invariant localizations == MergeAll(start, Flatten(mods[..i]))
      {
        var localeObject := load(paths[i]);
        assert localeObject == mods[i];
        ghost var before := localizations;
        for j := 0 to |localeObject|
          invariant localizations == MergeAll(before, localeObject[..j])
        {
          var (localeProp, responses) := localeObject[j];
          if localeProp !in localizations {
            localizations := localizations[localeProp := responses];
          }
          assert localeObject[..j + 1][..j] == localeObject[..j];
        }
        assert localeObject[..|localeObject|] == localeObject;
        MergeAppend(start, Flatten(mods[..i]), mods[i]);
        assert mods[..i + 1][..i] == mods[..i];
      }
      assert mods[..|paths|] == mods;
      return true;
    }

    /**
     * The response under `responseKey` for the given locale, or the default
     * one when none is given, rendered with `data`. Changes nothing.
     */
    method Get(responseKey: string, data: map<string, Value>, locale: Option<string>) returns (r: Result<string, Error>)
      requires Valid()
      ensures !Given(locale) && defaultLocale.None? ==> r == Failure(NoLocale)
      ensures Given(locale) || defaultLocale.Some? ==>
        var computed := if Given(locale) then locale.value else defaultLocale.value;
        && (computed !in localizations ==> r == Failure(UnknownLocale(computed)))
        && (computed in localizations &&
            (responseKey !in localizations[computed] || localizations[computed][responseKey] == "") ==>
              r == Failure(UnknownResponse(responseKey, computed)))
        && (computed in localizations && responseKey in localizations[computed] &&
            localizations[computed][responseKey] != "" ==>
              match Util.Render(localizations[computed][responseKey], data)
              case Success(text) => r == Success(text)
              case Failure(name) => r == Failure(MissingData(name)))
    {
      if !Given(locale) && defaultLocale.None? {
        return Failure(NoLocale);
      }
      var computedLocale := if Given(locale) then locale.value else defaultLocale.value;
      if computedLocale !in localizations {
        return Failure(UnknownLocale(computedLocale));
      }
      var responseLocale := localizations[computedLocale];
      if responseKey !in responseLocale || responseLocale[responseKey] == "" {
        return Failure(UnknownResponse(responseKey, computedLocale));
      }
      var rendered := Util.Render(responseLocale[responseKey], data);
      match rendered
      case Success(text) => r := Success(text);
      case Failure(name) => r := Failure(MissingData(name));
    }

    /**
     * Clears the table and builds it again from what the folder holds now;
     * resolves to true. When the folder cannot be read the table stays empty
     * and the error is passed on.
     */
    method Reload(listing: Option<seq<string>>, load: string -> LocaleModule) returns (r: Result<bool, Error>)
      requires Valid()
      modifies this`localizations
      ensures Valid()
      ensures folderPath == old(folderPath) && defaultLocale == old(defaultLocale)
      ensures listing.Some? ==>
        r == Success(true) && localizations == MergeAll(map[], Flatten(Modules(folderPath, listing.value, load)))
      ensures listing.None? ==> r == Failure(UnreadableDirectory(folderPath)) && localizations == map[]
    {
      localizations := map[];
      var ok := Initialize(listing, load);
      if ok {
        r := Success(true);
      } else {
        r := Failure(UnreadableDirectory(folderPath));
      }
    }
  }
}
