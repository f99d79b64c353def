/**
 * Locales and message catalogues (core/translation.cpp): the fixed table of
 * known locales, locale standardisation and language codes, the locale
 * fallback of `Translation::set_locale` and `TranslationServer::set_locale`,
 * a catalogue's message map, and the exact / near / fallback lookup order of
 * `TranslationServer::translate`.
 *
 * `StringName` values are strings; the empty string is the null name, which
 * the lookup treats as "no translation".
 */
module Translations {
  import opened Wrappers
  import Text

  /** `locale_list`, in table order, written in blocks of twenty. */
  const LOCALE_LIST: seq<string> := Concat(BLOCKS)

  const BLOCKS: seq<seq<string>> := [
    LOCALES_00, LOCALES_01, LOCALES_02, LOCALES_03, LOCALES_04, LOCALES_05, LOCALES_06, LOCALES_07, LOCALES_08, LOCALES_09,
    LOCALES_10, LOCALES_11, LOCALES_12, LOCALES_13, LOCALES_14, LOCALES_15, LOCALES_16, LOCALES_17, LOCALES_18
  ]

  /** The blocks one after another. */
  function Concat(bs: seq<seq<string>>): seq<string>
  {
    if bs == [] then [] else Concat(bs[..|bs| - 1]) + bs[|bs| - 1]
  }

  /** Every entry of every block is in the concatenation. */
  lemma {:induction false} ConcatHas(bs: seq<seq<string>>, b: nat, j: nat)
    requires b < |bs| && j < |bs[b]|
    ensures bs[b][j] in Concat(bs)
    decreases |bs|
  {
    var last := |bs| - 1;
    if b < last {
      assert bs[..last][b] == bs[b];
      ConcatHas(bs[..last], b, j);
    } else {
      assert Concat(bs) == Concat(bs[..last]) + bs[b];
      assert bs[b][j] in bs[b];
    }
  }

  const LOCALES_00: seq<string> := [
    "aa", "aa_DJ", "aa_ER", "aa_ET", "af", "af_ZA", "agr_PE", "ak_GH", "am_ET", "an_ES",
    "anp_IN", "ar", "ar_AE", "ar_BH", "ar_DZ", "ar_EG", "ar_IN", "ar_IQ", "ar_JO", "ar_KW"
  ]

  const LOCALES_01: seq<string> := [
    "ar_LB", "ar_LY", "ar_MA", "ar_OM", "ar_QA", "ar_SA", "ar_SD", "ar_SS", "ar_SY", "ar_TN",
    "ar_YE", "as_IN", "ast_ES", "ayc_PE", "ay_PE", "az", "az_AZ", "be", "be_BY", "bem_ZM"
  ]

  const LOCALES_02: seq<string> := [
    "ber_DZ", "ber_MA", "bg", "bg_BG", "bhb_IN", "bho_IN", "bi_TV", "bn", "bn_BD", "bn_IN",
    "bo", "bo_CN", "bo_IN", "br", "br_FR", "brx_IN", "bs_BA", "byn_ER", "ca", "ca_AD"
  ]

  const LOCALES_03: seq<string> := [
    "ca_ES", "ca_FR", "ca_IT", "ce_RU", "chr_US", "cmn_TW", "crh_UA", "csb_PL", "cs", "cs_CZ",
    "cv_RU", "cy_GB", "da", "da_DK", "de", "de_AT", "de_BE", "de_CH", "de_DE", "de_IT"
  ]

  const LOCALES_04: seq<string> := [
    "de_LU", "doi_IN", "dv_MV", "dz_BT", "el", "el_CY", "el_GR", "en", "en_AG", "en_AU",
    "en_BW", "en_CA", "en_DK", "en_GB", "en_HK", "en_IE", "en_IL", "en_IN", "en_NG", "en_NZ"
  ]

  const LOCALES_05: seq<string> := [
    "en_PH", "en_SG", "en_US", "en_ZA", "en_ZM", "en_ZW", "eo", "es", "es_AR", "es_BO",
    "es_CL", "es_CO", "es_CR", "es_CU", "es_DO", "es_EC", "es_ES", "es_GT", "es_HN", "es_MX"
  ]

  const LOCALES_06: seq<string> := [
    "es_NI", "es_PA", "es_PE", "es_PR", "es_PY", "es_SV", "es_US", "es_UY", "es_VE", "et",
    "et_EE", "eu", "eu_ES", "fa", "fa_IR", "ff_SN", "fi", "fi_FI", "fil", "fil_PH"
  ]

  const LOCALES_07: seq<string> := [
    "fo_FO", "fr", "fr_BE", "fr_CA", "fr_CH", "fr_FR", "fr_LU", "fur_IT", "fy_DE", "fy_NL",
    "ga", "ga_IE", "gd_GB", "gez_ER", "gez_ET", "gl", "gl_ES", "gu_IN", "gv_GB", "hak_TW"
  ]

  const LOCALES_08: seq<string> := [
    "ha_NG", "he", "he_IL", "hi", "hi_IN", "hne_IN", "hr", "hr_HR", "hsb_DE", "ht_HT",
    "hu", "hu_HU", "hus_MX", "hy_AM", "ia_FR", "id", "id_ID", "ig_NG", "ik_CA", "is"
  ]

  const LOCALES_09: seq<string> := [
    "is_IS", "it", "it_CH", "it_IT", "iu_CA", "ja", "ja_JP", "kab_DZ", "ka", "ka_GE",
    "kk_KZ", "kl_GL", "km", "km_KH", "kn_IN", "kok_IN", "ko", "ko_KR", "ks_IN", "ku"
  ]

  const LOCALES_10: seq<string> := [
    "ku_TR", "kw_GB", "ky_KG", "lb_LU", "lg_UG", "li_BE", "li_NL", "lij_IT", "ln_CD", "lo_LA",
    "lt", "lt_LT", "lv", "lv_LV", "lzh_TW", "mag_IN", "mai_IN", "mg_MG", "mh_MH", "mhr_RU"
  ]

  const LOCALES_11: seq<string> := [
    "mi", "mi_NZ", "miq_NI", "mk", "mk_MK", "ml", "ml_IN", "mni_IN", "mn_MN", "mr",
    "mr_IN", "ms", "ms_MY", "mt", "mt_MT", "my_MM", "myv_RU", "nah_MX", "nan_TW", "nb"
  ]

  const LOCALES_12: seq<string> := [
    "nb_NO", "nds_DE", "nds_NL", "ne_NP", "nhn_MX", "niu_NU", "niu_NZ", "nl", "nl_AW", "nl_BE",
    "nl_NL", "nn", "nn_NO", "nr_ZA", "nso_ZA", "oc_FR", "om", "om_ET", "om_KE", "or"
  ]

  const LOCALES_13: seq<string> := [
    "or_IN", "os_RU", "pa_IN", "pap", "pap_AN", "pap_AW", "pap_CW", "pa_PK", "pl", "pl_PL",
    "pr", "ps_AF", "pt", "pt_BR", "pt_PT", "quy_PE", "quz_PE", "raj_IN", "ro", "ro_RO"
  ]

  const LOCALES_14: seq<string> := [
    "ru", "ru_RU", "ru_UA", "rw_RW", "sa_IN", "sat_IN", "sc_IT", "sco", "sd_IN", "se_NO",
    "sgs_LT", "shs_CA", "sid_ET", "si", "si_LK", "sk", "sk_SK", "sl", "sl_SI", "so"
  ]

  const LOCALES_15: seq<string> := [
    "so_DJ", "so_ET", "so_KE", "so_SO", "son_ML", "sq", "sq_AL", "sq_KV", "sq_MK", "sr",
    "sr_Cyrl", "sr_Latn", "sr_ME", "sr_RS", "ss_ZA", "st_ZA", "sv", "sv_FI", "sv_SE", "sw_KE"
  ]

  const LOCALES_16: seq<string> := [
    "sw_TZ", "szl_PL", "ta", "ta_IN", "ta_LK", "tcy_IN", "te", "te_IN", "tg_TJ", "the_NP",
    "th", "th_TH", "ti", "ti_ER", "ti_ET", "tig_ER", "tk_TM", "tl_PH", "tn_ZA", "tr"
  ]

  const LOCALES_17: seq<string> := [
    "tr_CY", "tr_TR", "ts_ZA", "tt", "tt_RU", "tzm", "tzm_MA", "ug_CN", "uk", "uk_UA",
    "unm_US", "ur", "ur_IN", "ur_PK", "uz", "uz_UZ", "ve_ZA", "vi", "vi_VN", "wa_BE"
  ]

  const LOCALES_18: seq<string> := [
    "wae_CH", "wal_ET", "wo_SN", "xh_ZA", "yi_US", "yo_NG", "yue_HK", "zh", "zh_CN", "zh_HK",
    "zh_SG", "zh_TW", "zu_ZA"
  ]

  /** The fallback of `TranslationServer::set_locale`, and a catalogue's initial locale. */
  const DEFAULT_LOCALE := "en"

  lemma DefaultLocaleListed()
    ensures DEFAULT_LOCALE in LOCALE_LIST
  {
    Listed(4, 7, DEFAULT_LOCALE);
  }

  /** The `while (*ptr)` scan of a table from position `k`. */
  function ListedFrom(table: seq<string>, s: string, k: nat): (r: bool)
    requires k <= |table|
    ensures r <==> s in table[k..]
    decreases |table| - k
  {
    if k == |table| then false
    else if table[k] == s then true
    else
      assert table[k..] == [table[k]] + table[k + 1..];
      ListedFrom(table, s, k + 1)
  }

  /** `is_locale_valid`: the locale is an entry of the table. */
  function IsLocaleValid(s: string): (r: bool)
    ensures r <==> s in LOCALE_LIST
  {
    assert LOCALE_LIST[0..] == LOCALE_LIST;
    ListedFrom(LOCALE_LIST, s, 0)
  }

  /** `locale_renames`: Windows names that are not ISO 639-1. */
  function Rename(s: string): string
  {
    if s == "in" then "id" else if s == "iw" then "he" else if s == "no" then "nb" else s
  }

  /**
   * `standardize_locale`: '-' becomes '_', then a renamed locale takes its ISO
   * name. Exactly "in", "iw" and "no" are renamed; every other locale keeps
   * its characters, with each '-' turned into '_'.
   */
  function StandardizeLocale(s: string): (r: string)
    ensures '-' !in r
    ensures s == "in" ==> r == "id"
    ensures s == "iw" ==> r == "he"
    ensures s == "no" ==> r == "nb"
    ensures s != "in" && s != "iw" && s != "no" ==>
      r == Text.ReplaceAll(s, "-", "_") && |r| == |s| && forall k :: 0 <= k < |s| ==> r[k] == if s[k] == '-' then '_' else s[k]
  {
    Text.ReplaceCharRemoves(s, '-', "_");
    Text.ReplaceCharPointwise(s, '-', '_');
    RenamedAsGiven(s);
    Rename(Text.ReplaceAll(s, "-", "_"))
  }

  /** The dash replacement yields one of the renamed names exactly when it was given without dashes. */
  lemma RenamedAsGiven(s: string)
    ensures var u := Text.ReplaceAll(s, "-", "_");
      (u == "in" <==> s == "in") && (u == "iw" <==> s == "iw") && (u == "no" <==> s == "no")
  {
    var u := Text.ReplaceAll(s, "-", "_");
    Text.ReplaceCharPointwise(s, '-', '_');
    if u == "in" || u == "iw" || u == "no" || s == "in" || s == "iw" || s == "no" {
      assert '-' !in s by {
        forall k | 0 <= k < |s| ensures s[k] != '-' {
          assert u[k] != '_' || s[k] != '-';
        }
      }
      Text.CharAbsent(s, '-');
      Text.ReplaceAbsent(s, "-", "_");
    }
  }

  /** Standardising a standard locale changes nothing. */
  lemma StandardizeIdempotent(s: string)
    ensures StandardizeLocale(StandardizeLocale(s)) == StandardizeLocale(s)
  {
    var t := StandardizeLocale(s);
    Text.CharAbsent(t, '-');
    Text.ReplaceAbsent(t, "-", "_");
  }

  /** The three renames give listed locales, so a renamed locale is always valid. */
  lemma RenamesAreListed(s: string)
    requires s == "in" || s == "iw" || s == "no"
    ensures IsLocaleValid(StandardizeLocale(s))
  {
    assert StandardizeLocale(s) == Rename(s) by {
      Text.CharAbsent(s, '-');
      Text.ReplaceAbsent(s, "-", "_");
    }
    RenameTargetsListed();
  }

  lemma RenameTargetsListed()
    ensures IsLocaleValid("id") && IsLocaleValid("he") && IsLocaleValid("nb")
  {
    Listed(8, 15, "id");
    Listed(8, 1, "he");
    Listed(11, 19, "nb");
  }

  /** Entry `j` of block `b` is a listed locale. */
  lemma Listed(b: nat, j: nat, s: string)
    requires b < |BLOCKS| && j < |BLOCKS[b]| && BLOCKS[b][j] == s
    ensures s in LOCALE_LIST
  {
    ConcatHas(BLOCKS, b, j);
  }

  /**
   * `get_language_code`: the part before the first '_', or else before the
   * first '-', or the whole locale; a locale shorter than two characters is
   * returned unchanged (the source's error path).
   */
  function GetLanguageCode(s: string): (r: string)
    ensures Text.StartsWith(s, r)
  {
    if |s| < 2 then s
    else
      var split := Text.Find(s, "_");
      var split' := if split == -1 then Text.Find(s, "-") else split;
      if split' == -1 then s else s[..split']
  }

  /** The code holds no '_', and no '-' either when the locale has no '_'; a locale with neither is its own code. */
  lemma LanguageCodeShape(s: string)
    requires |s| >= 2
    ensures '_' !in GetLanguageCode(s)
    ensures '_' !in s ==> '-' !in GetLanguageCode(s)
    ensures '_' !in s && '-' !in s ==> GetLanguageCode(s) == s
  {
    var split := Text.Find(s, "_");
    FirstBefore(s, "_", split);
    if split == -1 {
      FirstBefore(s, "-", Text.Find(s, "-"));
    }
  }

  /** Where `find` reports the first occurrence of a one-character key, the prefix before it is free of that character. */
  lemma FirstBefore(s: string, key: string, at: int)
    requires |key| == 1
    requires at == Text.Find(s, key)
    ensures at == -1 <==> key[0] !in s
    ensures at != -1 ==> 0 <= at < |s| && key[0] !in s[..at]
  {
    if at == -1 {
      forall j | 0 <= j < |s| ensures s[j] != key[0] {
        assert !Text.OccursAt(s, key, j);
        assert s[j..j + 1] == [s[j]];
      }
    } else {
      assert s[at..at + 1] == key;
      forall j | 0 <= j < at ensures s[j] != key[0] {
        assert !Text.OccursAt(s, key, j);
        assert s[j..j + 1] == [s[j]];
      }
    }
  }

  /** For a standardised locale the language code is its own language code. */
  lemma LanguageCodeIdempotent(s: string)
    requires '-' !in s
    ensures GetLanguageCode(GetLanguageCode(s)) == GetLanguageCode(s)
  {
    var r := GetLanguageCode(s);
    if |s| >= 2 {
      LanguageCodeShape(s);
    }
    assert '-' !in r by {
      assert r == s[..|r|];
      forall k | 0 <= k < |r| ensures r[k] != '-' { assert r[k] == s[k]; }
    }
  }

  /**
   * The locale `set_locale` keeps for a request: the standardised locale if
   * listed, else its language code if listed, else nothing.
   */
  function ResolveLocale(p: string): (r: Option<string>)
    ensures r.Some? ==> IsLocaleValid(r.value)
    ensures IsLocaleValid(StandardizeLocale(p)) ==> r == Some(StandardizeLocale(p))
    ensures r.None? <==> !IsLocaleValid(StandardizeLocale(p)) && !IsLocaleValid(GetLanguageCode(StandardizeLocale(p)))
  {
    var univ := StandardizeLocale(p);
    if IsLocaleValid(univ) then Some(univ)
    else
      var trimmed := GetLanguageCode(univ);
      if IsLocaleValid(trimmed) then Some(trimmed) else None
  }

  /** A listed locale is accepted as it stands. */
  lemma ListedLocaleKept(p: string)
    requires IsLocaleValid(p) && '-' !in p && p != "in" && p != "iw" && p != "no"
    ensures ResolveLocale(p) == Some(p)
  {
    Text.CharAbsent(p, '-');
    Text.ReplaceAbsent(p, "-", "_");
  }

  /** The value of a catalogue: its locale and its message map. */
  datatype Catalogue = Catalogue(locale: string, messages: map<string, string>)

  /** `get_message`: the translation, or the null name for an absent key. */
  function MessageOf(c: Catalogue, src: string): (r: string)
    ensures src in c.messages ==> r == c.messages[src]
    ensures src !in c.messages ==> r == ""
  {
    if src in c.messages then c.messages[src] else ""
  }

  /** The messages after `add_message` on each consecutive pair, in order. */
  function AddPairs(m: map<string, string>, pairs: seq<string>): (r: map<string, string>)
    requires |pairs| % 2 == 0
    decreases |pairs|
  {
    if pairs == [] then m else AddPairs(m[pairs[0] := pairs[1]], pairs[2..])
  }

  lemma {:induction false} AddPairsAppend(m: map<string, string>, pairs: seq<string>, k: string, v: string)
    requires |pairs| % 2 == 0
    ensures AddPairs(m, pairs + [k, v]) == AddPairs(m, pairs)[k := v]
    decreases |pairs|
  {
    if pairs != [] {
      assert (pairs + [k, v])[2..] == pairs[2..] + [k, v];
      AddPairsAppend(m[pairs[0] := pairs[1]], pairs[2..], k, v);
    } else {
      assert [k, v][2..] == [];
    }
  }

  /** The keys in the order `order`, each followed by its translation: what `_get_messages` emits. */
  function Flatten(order: seq<string>, m: map<string, string>): (r: seq<string>)
    requires forall k :: 0 <= k < |order| ==> order[k] in m
    ensures |r| == 2 * |order|
    ensures forall k :: 0 <= k < |order| ==> r[2 * k] == order[k] && r[2 * k + 1] == m[order[k]]
  {
    if order == [] then [] else [order[0], m[order[0]]] + Flatten(order[1..], m)
  }

  /** `order` lists every key of `m` exactly once, as iterating over the map does. */
  predicate Enumerates(order: seq<string>, m: map<string, string>)
  {
    && (forall k :: 0 <= k < |order| ==> order[k] in m)
    && (forall k, j :: 0 <= k < j < |order| ==> order[k] != order[j])
    && (forall key :: key in m ==> key in order)
  }

  /** Loading what `_get_messages` saved into an empty catalogue rebuilds the same map. */
  lemma {:induction false} SaveLoadRoundTrip(order: seq<string>, m: map<string, string>, acc: map<string, string>)
    requires forall k :: 0 <= k < |order| ==> order[k] in m
    requires forall k, j :: 0 <= k < j < |order| ==> order[k] != order[j]
    requires forall key :: key in m ==> key in acc || key in order
    requires forall key :: key in acc ==> key in m && acc[key] == m[key] && key !in order
    ensures AddPairs(acc, Flatten(order, m)) == m
    decreases |order|
  {
    if order != [] {
      var f := Flatten(order, m);
      assert f[2..] == Flatten(order[1..], m);
      var acc' := acc[order[0] := m[order[0]]];
      SaveLoadRoundTrip(order[1..], m, acc');
    } else {
      assert acc == m;
    }
  }

  /** A catalogue (`Translation`) whose locale and messages change in place. */
  class Translation {
    var locale: string
    var messages: map<string, string>

    function Value(): Catalogue
      reads this
    {
      Catalogue(locale, messages)
    }

    constructor ()
      ensures locale == DEFAULT_LOCALE && messages == map[]
    {
      locale := DEFAULT_LOCALE;
      messages := map[];
    }

    /** `Translation::set_locale`: like the server's, except that an unusable locale fails and changes nothing. */
    method SetLocale(p: string) returns (ok: bool)
      modifies this`locale
      ensures ok <==> ResolveLocale(p).Some?
      ensures ok ==> locale == ResolveLocale(p).value && IsLocaleValid(locale)
      ensures !ok ==> locale == old(locale)
    {
      var univ := StandardizeLocale(p);
      if !IsLocaleValid(univ) {
        var trimmed := GetLanguageCode(univ);
        if !IsLocaleValid(trimmed) {
          return false;
        }
        locale := trimmed;
      } else {
        locale := univ;
      }
      ok := true;
    }

    /** `add_message`: sets or overwrites one key. */
    method AddMessage(src: string, xlated: string)
      modifies this`messages
      ensures messages == old(messages)[src := xlated]
    {
      messages := messages[src := xlated];
    }

    /** `get_message`. */
    function GetMessage(src: string): (r: string)
      reads this
      ensures r == MessageOf(Value(), src)
    {
      if src in messages then messages[src] else ""
    }

    /** `erase_message`: removes one key and keeps every other. */
    method EraseMessage(src: string)
      modifies this`messages
      ensures messages == old(messages) - {src}
    {
      messages := messages - {src};
    }

    /** `get_message_count`. */
    function GetMessageCount(): (n: nat)
      reads this
      ensures n == |messages.Keys|
    {
      |messages|
    }

    /** `_set_messages`: an odd-length array is refused; otherwise each pair is added in order. */
    method SetMessages(pairs: seq<string>) returns (ok: bool)
      modifies this`messages
      ensures ok <==> |pairs| % 2 == 0
      ensures !ok ==> messages == old(messages)
      ensures ok ==> messages == AddPairs(old(messages), pairs)
    {
      if |pairs| % 2 != 0 {
        return false;
      }
      var i := 0;
      while i < |pairs|
        invariant 0 <= i <= |pairs| && i % 2 == 0
        invariant messages == AddPairs(old(messages), pairs[..i])
      {
        AddPairsAppend(old(messages), pairs[..i], pairs[i], pairs[i + 1]);
        assert pairs[..i + 2] == pairs[..i] + [pairs[i], pairs[i + 1]];
        messages := messages[pairs[i] := pairs[i + 1]];
        i := i + 2;
      }
      assert pairs[..i] == pairs;
      ok := true;
    }

    /**
     * `_get_messages`: key and translation for each key, in the map's
     * iteration order `order`, which lists every key once; loading the
     * result rebuilds every message.
     */
    method GetMessages(order: seq<string>) returns (pairs: seq<string>)
      requires Enumerates(order, messages)
      ensures pairs == Flatten(order, messages)
      ensures AddPairs(map[], pairs) == messages
    {
      pairs := [];
      var i := 0;
      while i < |order|
        invariant 0 <= i <= |order|
        invariant |pairs| == 2 * i
        invariant forall k :: 0 <= k < i ==> pairs[2 * k] == order[k] && pairs[2 * k + 1] == messages[order[k]]
      {
        pairs := pairs + [order[i], messages[order[i]]];
        i := i + 1;
      }
      FlattenUnique(order, messages, pairs);
      SaveLoadRoundTrip(order, messages, map[]);
    }
  }

  lemma FlattenUnique(order: seq<string>, m: map<string, string>, pairs: seq<string>)
    requires forall k :: 0 <= k < |order| ==> order[k] in m
    requires |pairs| == 2 * |order|
    requires forall k :: 0 <= k < |order| ==> pairs[2 * k] == order[k] && pairs[2 * k + 1] == m[order[k]]
    ensures pairs == Flatten(order, m)
  {
    var f := Flatten(order, m);
    forall j | 0 <= j < |pairs| ensures pairs[j] == f[j] {
      var k := j / 2;
      assert f[2 * k] == order[k] && f[2 * k + 1] == m[order[k]];
      if j % 2 == 0 { assert j == 2 * k; } else { assert j == 2 * k + 1; }
    }
  }

  // ---- The server's lookup ----

  /** Does catalogue `c` answer in this pass: exact locale, or (for a near match) same language code. */
  predicate Answers(c: Catalogue, loc: string, src: string, exact: bool)
  {
    MessageOf(c, src) != ""
    && if exact then c.locale == loc
       else c.locale != loc && GetLanguageCode(c.locale) == GetLanguageCode(loc)
  }

  /** The message of the first catalogue that answers, or the null name. */
  function FirstAnswer(cats: seq<Catalogue>, loc: string, src: string, exact: bool): string
  {
    if cats == [] then ""
    else if Answers(cats[0], loc, src, exact) then MessageOf(cats[0], src)
    else FirstAnswer(cats[1..], loc, src, exact)
  }

  /** The null name exactly when no catalogue answers; otherwise the message of one that does. */
  lemma {:induction false} FirstAnswerMeaning(cats: seq<Catalogue>, loc: string, src: string, exact: bool)
    ensures var r := FirstAnswer(cats, loc, src, exact);
      (r == "" <==> forall k :: 0 <= k < |cats| ==> !Answers(cats[k], loc, src, exact))
      && (r != "" ==> exists k :: 0 <= k < |cats| && Answers(cats[k], loc, src, exact) && r == MessageOf(cats[k], src))
    decreases |cats|
  {
    if cats != [] && !Answers(cats[0], loc, src, exact) {
      FirstAnswerMeaning(cats[1..], loc, src, exact);
      assert forall k :: 1 <= k < |cats| ==> cats[k] == cats[1..][k - 1];
      if FirstAnswer(cats, loc, src, exact) != "" {
        var k :| 0 <= k < |cats[1..]| && Answers(cats[1..][k], loc, src, exact) && FirstAnswer(cats[1..], loc, src, exact) == MessageOf(cats[1..][k], src);
        assert cats[k + 1] == cats[1..][k];
      }
    }
  }

  lemma {:induction false} FirstAnswerAppend(cats: seq<Catalogue>, c: Catalogue, loc: string, src: string, exact: bool)
    ensures FirstAnswer(cats + [c], loc, src, exact) ==
      if FirstAnswer(cats, loc, src, exact) != "" then FirstAnswer(cats, loc, src, exact)
      else if Answers(c, loc, src, exact) then MessageOf(c, src) else ""
    decreases |cats|
  {
    if cats != [] {
      assert (cats + [c])[1..] == cats[1..] + [c];
      FirstAnswerAppend(cats[1..], c, loc, src, exact);
    }
  }

  /** One pass of `translate` for locale `loc`: an exact catalogue wins, else the first near one. */
  function Pass(cats: seq<Catalogue>, loc: string, src: string): string
  {
    var exact := FirstAnswer(cats, loc, src, true);
    if exact != "" then exact else FirstAnswer(cats, loc, src, false)
  }

  /** One pass as the source runs it: a loop carrying `res` and `near_match`. */
  method LookupPass(cats: seq<Catalogue>, loc: string, src: string) returns (res: string)
    ensures res == Pass(cats, loc, src)
  {
    var lang := GetLanguageCode(loc);
    var nearMatch := false;
    res := "";
    var i := 0;
    while i < |cats|
      invariant 0 <= i <= |cats|
      invariant FirstAnswer(cats[..i], loc, src, true) == ""
      invariant res == FirstAnswer(cats[..i], loc, src, false)
      invariant nearMatch <==> res != ""
    {
      var t := cats[i];
      FirstAnswerAppend(cats[..i], t, loc, src, true);
      FirstAnswerAppend(cats[..i], t, loc, src, false);
      assert cats[..i + 1] == cats[..i] + [t];
      var exactMatch := t.locale == loc;
      if !exactMatch {
        if nearMatch {
          i := i + 1;
          continue;
        }
        if GetLanguageCode(t.locale) != lang {
          i := i + 1;
          continue;
        }
      }
      var r := MessageOf(t, src);
      if r == "" {
        i := i + 1;
        continue;
      }
      res := r;
      if exactMatch {
        ExactStops(cats, i, loc, src);
        return;
      } else {
        nearMatch := true;
      }
      i := i + 1;
    }
    assert cats[..i] == cats;
  }

  lemma ExactStops(cats: seq<Catalogue>, i: nat, loc: string, src: string)
    requires i < |cats| && FirstAnswer(cats[..i], loc, src, true) == "" && Answers(cats[i], loc, src, true)
    ensures Pass(cats, loc, src) == MessageOf(cats[i], src)
  {
    FirstAnswerAppend(cats[..i], cats[i], loc, src, true);
    assert cats[..i + 1] == cats[..i] + [cats[i]];
    FirstAnswerPrefix(cats, i + 1, loc, src, true);
  }

  /** Once a prefix answers, the rest of the list does not matter. */
  lemma {:induction false} FirstAnswerPrefix(cats: seq<Catalogue>, n: nat, loc: string, src: string, exact: bool)
    requires n <= |cats| && FirstAnswer(cats[..n], loc, src, exact) != ""
    ensures FirstAnswer(cats, loc, src, exact) == FirstAnswer(cats[..n], loc, src, exact)
    decreases n
  {
    if !Answers(cats[0], loc, src, exact) {
      assert cats[..n][1..] == cats[1..][..n - 1];
      FirstAnswerPrefix(cats[1..], n - 1, loc, src, exact);
    }
  }

  /** `translate` for an enabled server with a usable locale: the locale's pass, then the fallback's, then the message itself. */
  function Resolve(cats: seq<Catalogue>, loc: string, fallback: string, src: string): (r: string)
  {
    var first := Pass(cats, loc, src);
    if first != "" then first
    else if |fallback| >= 2 then
      var second := Pass(cats, fallback, src);
      if second != "" then second else src
    else src
  }

  /** A translation always comes from a catalogue of the locale's or the fallback's language, or is the message itself. */
  lemma ResolveSource(cats: seq<Catalogue>, loc: string, fallback: string, src: string)
    ensures var r := Resolve(cats, loc, fallback, src);
      r == src || exists k :: (0 <= k < |cats| && r == MessageOf(cats[k], src) && r != ""
        && (GetLanguageCode(cats[k].locale) == GetLanguageCode(loc) || GetLanguageCode(cats[k].locale) == GetLanguageCode(fallback)))
  {
    FirstAnswerMeaning(cats, loc, src, true);
    FirstAnswerMeaning(cats, loc, src, false);
    FirstAnswerMeaning(cats, fallback, src, true);
    FirstAnswerMeaning(cats, fallback, src, false);
  }

  /** An exact catalogue holding the message beats every near one, whatever the order. */
  lemma ExactBeatsNear(cats: seq<Catalogue>, loc: string, fallback: string, src: string, e: nat)
    requires e < |cats| && cats[e].locale == loc && MessageOf(cats[e], src) != ""
    requires forall k :: 0 <= k < e ==> cats[k].locale != loc
    ensures Resolve(cats, loc, fallback, src) == MessageOf(cats[e], src)
  {
    FirstAnswerMeaning(cats[..e], loc, src, true);
    ExactStops(cats, e, loc, src);
  }

  /** The translation server's locale state and its catalogues, as values. */
  class TranslationServer {
    var locale: string
    var fallback: string
    var enabled: bool
    var translations: seq<Catalogue>
    var toolTranslation: Option<Catalogue>

    /** `TranslationServer::set_locale`: never fails; an unusable locale becomes "en". */
    method SetLocale(p: string)
      modifies this`locale
      ensures locale == ResolveLocale(p).GetOr(DEFAULT_LOCALE)
      ensures IsLocaleValid(locale)
    {
      DefaultLocaleListed();
      var univ := StandardizeLocale(p);
      if !IsLocaleValid(univ) {
        var trimmed := GetLanguageCode(univ);
        if !IsLocaleValid(trimmed) {
          locale := DEFAULT_LOCALE;
        } else {
          locale := trimmed;
        }
      } else {
        locale := univ;
      }
    }

    /** `translate`. */
    method Translate(src: string) returns (r: string)
      ensures !enabled || |locale| < 2 ==> r == src
      ensures enabled && |locale| >= 2 ==> r == Resolve(translations, locale, fallback, src)
    {
      if !enabled {
        return src;
      }
      if |locale| < 2 {
        return src;
      }
      r := LookupPass(translations, locale, src);
      if r == "" && |fallback| >= 2 {
        r := LookupPass(translations, fallback, src);
      }
      if r == "" {
        return src;
      }
    }

    /** `tool_translate`: the editor catalogue's message if it has a non-empty one, else the message itself. */
    function ToolTranslate(src: string): (r: string)
      reads this
      ensures toolTranslation.Some? && MessageOf(toolTranslation.value, src) != "" ==> r == MessageOf(toolTranslation.value, src)
      ensures toolTranslation.None? || MessageOf(toolTranslation.value, src) == "" ==> r == src
    {
      match toolTranslation
      case Some(t) => if MessageOf(t, src) != "" then MessageOf(t, src) else src
      case None => src
    }
  }
}
