/**
 * The reformulation helper of the back end: with no API key it builds a
 * fixed, level-dependent message around the technical summary; with a key it
 * hands back the remote model's text, or `None` when the request failed.
 * The HTTP request is not modelled: `remote` says how it ended.
 */
module Formatter {
  import opened Common
  import opened Text

  /** A recipient profile: a dictionary of strings, read through `niveau`. */
  type Profile = map<string, string>

  // The three prefixes, spelt in pieces: greeting, blank line, introduction, blank line.
  const Bonjour := "Bonjour,"
  const Salut := "Salut,"
  const Gap := "\n\n"
  const BeginnerPrefix := Bonjour + Gap + "J'ai regardé votre code et voici des " + "explications claires et pédagogiques :" + Gap
  const AdvancedPrefix := Salut + Gap + "Voici un bref résumé technique des " + "problèmes détectés :" + Gap
  const NeutralPrefix := Bonjour + Gap + "Résumé des problèmes détectés :" + Gap

  /** The three registers the fallback writes in. */
  datatype Register = Pedagogic | Terse | Plain

  /** How a remote reformulation request ended. */
  datatype Remote = Reply(text: string) | RequestFailed

  /** `profile.get("niveau", "intermediate")`. */
  function Niveau(p: Profile): string {
    if "niveau" in p then p["niveau"] else "intermediate"
  }

  /** The register a level asks for: beginners get explanations, advanced users a terse summary. */
  function RegisterOf(niveau: string): (g: Register)
    ensures g == Pedagogic <==> niveau == "beginner"
    ensures g == Terse <==> niveau == "advanced"
  {
    if niveau == "beginner" then Pedagogic
    else if niveau == "advanced" then Terse
    else Plain
  }

  function PrefixOf(g: Register): string {
    match g
    case Pedagogic => BeginnerPrefix
    case Terse => AdvancedPrefix
    case Plain => NeutralPrefix
  }

  /**
   * `_local_fallback`: the summary, unchanged, behind the greeting and
   * introduction of the profile's register.
   */
  function LocalFallback(p: Profile, summary: string): (r: string)
    ensures EndsWith(r, summary)
    ensures r[..|r| - |summary|] == PrefixOf(RegisterOf(Niveau(p)))
    ensures StartsWith(r, Bonjour) || StartsWith(r, Salut)
    ensures StartsWith(r, Salut) <==> Niveau(p) == "advanced"
  {
    var prefix := PrefixOf(RegisterOf(Niveau(p)));
    var r := prefix + summary;
    assert r[..|prefix|] == prefix;
    assert r[..6] == prefix[..6];
    assert r[..8] == prefix[..8];
    assert r[0] == prefix[0];
    assert BeginnerPrefix[0] == NeutralPrefix[0] == 'B' && Salut[0] == 'S';
    r
  }

  /** The register and summary a fallback text was built from, if it is one. */
  function DecodeFallback(text: string): Option<(Register, string)> {
    if StartsWith(text, BeginnerPrefix) then Some((Pedagogic, text[|BeginnerPrefix|..]))
    else if StartsWith(text, AdvancedPrefix) then Some((Terse, text[|AdvancedPrefix|..]))
    else if StartsWith(text, NeutralPrefix) then Some((Plain, text[|NeutralPrefix|..]))
    else None
  }

  /** No prefix starts another one, so each fallback text starts with only its own prefix. */
  lemma PrefixesExclusive(g: Register, s: string)
    ensures StartsWith(PrefixOf(g) + s, BeginnerPrefix) <==> g == Pedagogic
    ensures StartsWith(PrefixOf(g) + s, AdvancedPrefix) <==> g == Terse
    ensures StartsWith(PrefixOf(g) + s, NeutralPrefix) <==> g == Plain
  {
    var t := PrefixOf(g) + s;
    assert t[..|PrefixOf(g)|] == PrefixOf(g);
    assert t[0] == PrefixOf(g)[0];
    assert t[10] == PrefixOf(g)[10];
    assert BeginnerPrefix[0] == 'B' && BeginnerPrefix[10] == 'J';
    assert AdvancedPrefix[0] == 'S';
    assert NeutralPrefix[0] == 'B' && NeutralPrefix[10] == 'R';
    if StartsWith(t, BeginnerPrefix) { assert t[10] == BeginnerPrefix[10]; assert t[0] == BeginnerPrefix[0]; }
    if StartsWith(t, AdvancedPrefix) { assert t[0] == AdvancedPrefix[0]; }
    if StartsWith(t, NeutralPrefix) { assert t[10] == NeutralPrefix[10]; assert t[0] == NeutralPrefix[0]; }
  }

  /** The fallback text gives back both the register it chose and the summary it was given. */
  lemma DecodeLocalFallback(p: Profile, summary: string)
    ensures DecodeFallback(LocalFallback(p, summary)) == Some((RegisterOf(Niveau(p)), summary))
  {
    var g := RegisterOf(Niveau(p));
    PrefixesExclusive(g, summary);
    assert (PrefixOf(g) + summary)[|PrefixOf(g)|..] == summary;
  }

  /** Two fallback texts are equal only when built in the same register from the same summary. */
  lemma LocalFallbackInjective(p: Profile, q: Profile, s: string, t: string)
    requires LocalFallback(p, s) == LocalFallback(q, t)
    ensures s == t
    ensures RegisterOf(Niveau(p)) == RegisterOf(Niveau(q))
  {
    DecodeLocalFallback(p, s);
    DecodeLocalFallback(q, t);
  }

  /** An API key is configured: set and not empty. */
  predicate HasKey(key: Option<string>) {
    key.Some? && |key.value| > 0
  }

  /**
   * `ai_rephrase`: the local fallback when no key is set; otherwise the remote
   * text unchanged, or `None` when the request failed.
   */
  function AiRephrase(key: Option<string>, remote: Remote, p: Profile, summary: string): (r: Option<string>)
    ensures !HasKey(key) ==> r == Some(LocalFallback(p, summary))
    ensures HasKey(key) && remote.Reply? ==> r == Some(remote.text)
    ensures r.None? <==> HasKey(key) && remote.RequestFailed?
  {
    if !HasKey(key) then Some(LocalFallback(p, summary))
    else
      match remote
      case Reply(text) => Some(text)
      case RequestFailed => None
  }

  /** Without a key the summary always reaches the reader, whatever the remote service does. */
  lemma NoKeyKeepsSummary(key: Option<string>, remote: Remote, p: Profile, summary: string)
    requires !HasKey(key)
    ensures AiRephrase(key, remote, p, summary).Some?
    ensures EndsWith(AiRephrase(key, remote, p, summary).value, summary)
  {
  }
}
