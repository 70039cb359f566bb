/** server/store.py: the languages registered by users, keyed by `str(user_id)`,
    with the key each language's evaluator must present. Persistence is not
    modelled; the store is the in-memory map it wraps. */
module Store {
  import opened Wrappers
  import Text

  datatype Language = Language(userId: int, name: string, short: string, key: string)

  /** `str(language.user_id)`, the map key of a user's language. */
  function UserKey(userId: int): string {
    Text.IntToDecimal(userId)
  }

  /** `other` belongs to a different user and uses `lang`'s name as its name
      or `lang`'s short form as its short form (names are never compared with shorts). */
  predicate NameClash(m: map<string, Language>, lang: Language) {
    exists k :: k in m && m[k].userId != lang.userId && m[k].name == lang.name
  }

  predicate ShortClash(m: map<string, Language>, lang: Language) {
    exists k :: k in m && m[k].userId != lang.userId && m[k].short == lang.short
  }

  /** Some stored language holds `key`. */
  predicate KeyValid(m: map<string, Language>, key: string) {
    exists k :: k in m && m[k].key == key
  }

  /** The store's invariant: each language is stored under its own user's key,
      and no two users share a name or a short form. */
  ghost predicate Consistent(m: map<string, Language>) {
    (forall k :: k in m ==> k == UserKey(m[k].userId))
    && (forall k1, k2 :: k1 in m && k2 in m && m[k1].userId != m[k2].userId ==>
          m[k1].name != m[k2].name && m[k1].short != m[k2].short)
  }

  /** `LanguageRegistrationException(...)` message: both checks use the same wording. */
  function AlreadyRegistered(name: string): string {
    "A language with name " + name + " is alredy registered"
  }

  datatype RegisterOutcome = Registered(previous: Option<Language>) | Rejected(message: string)

  class LanguageStore {
    var clients: map<string, Language>

    ghost predicate Valid()
      reads this
    {
      Consistent(clients)
    }

    constructor ()
      ensures Valid() && clients == map[]
    {
      clients := map[];
    }

    /** `register_lang`: rejected if another user's language has the same name
        or the same short form; otherwise stored under the user's key, and the
        user's previous language, if any, is returned. */
    method RegisterLang(language: Language) returns (outcome: RegisterOutcome)
      requires Valid()
      modifies this
      ensures Valid()
      ensures outcome.Rejected? <==> NameClash(old(clients), language) || ShortClash(old(clients), language)
      ensures outcome.Rejected? ==> clients == old(clients)
      ensures outcome.Rejected? ==>
        (outcome.message == AlreadyRegistered(language.name) && NameClash(old(clients), language))
        || (outcome.message == AlreadyRegistered(language.short) && ShortClash(old(clients), language))
      ensures outcome.Registered? ==> clients == old(clients)[UserKey(language.userId) := language]
      ensures outcome.Registered? ==>
        outcome.previous == (if UserKey(language.userId) in old(clients) then Some(old(clients)[UserKey(language.userId)]) else None)
      ensures outcome.Registered? && outcome.previous.Some? ==> outcome.previous.value.userId == language.userId
    {
      var remaining := clients.Keys;
      while remaining != {}
        invariant remaining <= clients.Keys
        invariant forall k :: k in clients && k !in remaining ==>
          !(clients[k].userId != language.userId && (clients[k].name == language.name || clients[k].short == language.short))
        decreases remaining
      {
        var k :| k in remaining;
        var lang := clients[k];
        if language.name == lang.name && lang.userId != language.userId {
          return Rejected(AlreadyRegistered(language.name));
        }
        if language.short == lang.short && lang.userId != language.userId {
          return Rejected(AlreadyRegistered(language.short));
        }
        remaining := remaining - {k};
      }
      var uk := UserKey(language.userId);
      var previous := None;
      if uk in clients {
        previous := Some(clients[uk]);
        Text.IntToDecimalInjective(clients[uk].userId, language.userId);
      }
      RegisterKeepsConsistent(clients, language);
      clients := clients[uk := language];
      return Registered(previous);
    }

    /** `find_lang`: some stored language whose name or short form is `name`,
        and `None` exactly when there is none. */
    method FindLang(name: string) returns (found: Option<Language>)
      ensures found.Some? ==> found.value in clients.Values && (found.value.name == name || found.value.short == name)
      ensures found.None? <==> forall k :: k in clients ==> clients[k].name != name && clients[k].short != name
    {
      var remaining := clients.Keys;
      while remaining != {}
        invariant remaining <= clients.Keys
        invariant forall k :: k in clients && k !in remaining ==> clients[k].name != name && clients[k].short != name
        decreases remaining
      {
        var k :| k in remaining;
        var lang := clients[k];
        if name == lang.name || name == lang.short {
          return Some(lang);
        }
        remaining := remaining - {k};
      }
      return None;
    }

    /** `validate_key`: whether some stored language holds `key`. */
    method ValidateKey(key: string) returns (valid: bool)
      ensures valid <==> KeyValid(clients, key)
    {
      var remaining := clients.Keys;
      while remaining != {}
        invariant remaining <= clients.Keys
        invariant forall k :: k in clients && k !in remaining ==> clients[k].key != key
        decreases remaining
      {
        var k :| k in remaining;
        if clients[k].key == key {
          return true;
        }
        remaining := remaining - {k};
      }
      return false;
    }
  }

  /** Storing a language that clashes with no other user's keeps the store consistent. */
  lemma RegisterKeepsConsistent(m: map<string, Language>, lang: Language)
    requires Consistent(m)
    requires !NameClash(m, lang) && !ShortClash(m, lang)
    ensures Consistent(m[UserKey(lang.userId) := lang])
  {
    var m' := m[UserKey(lang.userId) := lang];
    forall k1, k2 | k1 in m' && k2 in m' && m'[k1].userId != m'[k2].userId
      ensures m'[k1].name != m'[k2].name && m'[k1].short != m'[k2].short
    {
      if k1 != UserKey(lang.userId) && k2 != UserKey(lang.userId) {
      } else if k1 == UserKey(lang.userId) {
        assert m'[k2] == m[k2];
      } else {
        assert m'[k1] == m[k1];
      }
    }
  }

  /** After a user's language is replaced, a key validates iff it is the new
      language's key or some other user's language holds it: the replaced key
      is disabled unless it is shared. */
  lemma ReplacedKeyDisabled(m: map<string, Language>, lang: Language, key: string)
    ensures KeyValid(m[UserKey(lang.userId) := lang], key) <==>
      key == lang.key || exists k :: k in m && k != UserKey(lang.userId) && m[k].key == key
  {
    var m' := m[UserKey(lang.userId) := lang];
    if KeyValid(m', key) && key != lang.key {
      var k :| k in m' && m'[k].key == key;
      assert k != UserKey(lang.userId) && m[k].key == key;
    }
    if key == lang.key {
      assert m'[UserKey(lang.userId)].key == key;
    } else if exists k :: k in m && k != UserKey(lang.userId) && m[k].key == key {
      var k :| k in m && k != UserKey(lang.userId) && m[k].key == key;
      assert k in m' && m'[k].key == key;
    }
  }

  /** A name is never compared with another user's short form: a language whose
      name is another user's short form is accepted when nothing else clashes,
      and the store then holds that text as one user's name and another's short form. */
  lemma NameMayEqualOtherShort(m: map<string, Language>, lang: Language, k: string)
    requires Consistent(m) && !NameClash(m, lang) && !ShortClash(m, lang)
    requires k in m && m[k].userId != lang.userId && m[k].short == lang.name
    ensures var m' := m[UserKey(lang.userId) := lang];
      Consistent(m') && k in m' && m'[k].short == lang.name && m'[UserKey(lang.userId)].name == lang.name
      && m'[k].userId != lang.userId
  {
    if k == UserKey(lang.userId) {
      Text.IntToDecimalInjective(m[k].userId, lang.userId);
    }
    RegisterKeepsConsistent(m, lang);
  }
}
