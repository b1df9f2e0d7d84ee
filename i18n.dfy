/** The language table (src/libs/i18n.rs). A language's content is JSON, kept abstract as the type parameter `V`. */
module I18n {

  datatype LanguageClientError = LanguageAlreadyDefined

  datatype AddResult = Added | Rejected(error: LanguageClientError)

  /** What `add_lang` does to the table: insert an absent name, overwrite a present one only when
      forced, otherwise refuse and leave the table as it was. */
  function AddLangSpec<V>(langs: map<string, V>, name: string, content: V, force: bool): (r: (AddResult, map<string, V>))
    ensures r.0 == Added <==> name !in langs || force
    ensures r.0 == Added ==> name in r.1 && r.1[name] == content
    ensures r.0.Rejected? ==> r.0.error == LanguageAlreadyDefined && r.1 == langs
    ensures r.1.Keys == langs.Keys + {name} || r.1.Keys == langs.Keys
    ensures forall k :: k in langs && k != name ==> k in r.1 && r.1[k] == langs[k]
  {
    if name in langs then
      if force then (Added, langs[name := content]) else (Rejected(LanguageAlreadyDefined), langs)
    else (Added, langs[name := content])
  }

  /** Once a name has been added, adding it again without `force` is refused. */
  lemma AddTwiceRejected<V>(langs: map<string, V>, name: string, c1: V, c2: V, force: bool)
    requires AddLangSpec(langs, name, c1, force).0 == Added
    ensures AddLangSpec(AddLangSpec(langs, name, c1, force).1, name, c2, false)
              == (Rejected(LanguageAlreadyDefined), AddLangSpec(langs, name, c1, force).1)
  {
  }

  /** A forced add is idempotent. */
  lemma ForcedAddIdempotent<V>(langs: map<string, V>, name: string, content: V)
    ensures var once := AddLangSpec(langs, name, content, true).1;
            AddLangSpec(once, name, content, true) == (Added, once)
  {
    var once := AddLangSpec(langs, name, content, true).1;
    assert once[name := content] == once;
  }

  class Languages<V> {
    var langs: map<string, V>

    /** `Languages::new`: an empty table. */
    constructor ()
      ensures langs == map[]
    {
      langs := map[];
    }

    /** `add_lang`. */
    method AddLang(name: string, content: V, force: bool) returns (r: AddResult)
      modifies this
      ensures (r, langs) == AddLangSpec(old(langs), name, content, force)
    {
      if name in langs {
        if force {
          langs := langs[name := content];
          r := Added;
        } else {
          r := Rejected(LanguageAlreadyDefined);
        }
      } else {
        langs := langs[name := content];
        r := Added;
      }
    }
  }

  /** The initial `LANGUAGES` table: the French and then the English default, both forced. */
  method InitialLanguages<V>(frDefault: V, enDefault: V) returns (table: Languages<V>)
    ensures fresh(table)
    ensures table.langs.Keys == {"fr_default", "en_default"}
    ensures table.langs["fr_default"] == frDefault && table.langs["en_default"] == enDefault
  {
    table := new Languages();
    var _ := table.AddLang("fr_default", frDefault, true);
    var _ := table.AddLang("en_default", enDefault, true);
    InitialTableKeys("fr_default", frDefault, "en_default", enDefault);
  }

  /** Two forced adds of different names into an empty table hold exactly those two names. */
  lemma InitialTableKeys<V>(n1: string, c1: V, n2: string, c2: V)
    requires n1 != n2
    ensures var t := AddLangSpec(AddLangSpec(map[], n1, c1, true).1, n2, c2, true).1;
            t.Keys == {n1, n2} && t[n1] == c1 && t[n2] == c2
  {
  }
}
