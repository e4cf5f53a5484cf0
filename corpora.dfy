// The word lists random TEXT draws from (textCorpus of ht/random.go).

module Corpora {
  /** textCorpus, each text split at its blanks. */
  const TextCorpus: map<string, seq<string>> := map["fr" := Fr, "de" := De, "en" := En, "tlh" := Tlh]

  /** Every text of textCorpus has at least two words. */
  lemma TextCorpusWords()
    ensures forall lang :: lang in TextCorpus ==> |TextCorpus[lang]| >= 2
  {
  }

  const Fr: seq<string> := [
    "Allons", "enfants", "de", "la", "Patrie", "Le", "jour", "de", "gloire", "est",
    "arriv\U{00E9}!", "Contre", "nous", "de", "la", "tyrannie", "L'\U{00E9}tendard",
    "sanglant", "est", "lev\U{00E9}", "Entendez-vous", "dans", "nos", "campagnes.", "Mugir",
    "ces", "f\U{00E9}roces", "soldats?", "Ils", "viennent", "jusque", "dans", "vos", "bras.",
    "\U{00C9}gorger", "vos", "fils,", "vos", "compagnes!", "Aux", "armes,", "citoyens!",
    "Formez", "vos", "bataillons!", "Marchons!", "Marchons!", "Qu'un", "sang", "impur",
    "Abreuve", "nos", "sillons!", "Amour", "sacr\U{00E9}", "de", "la", "patrie,", "Conduis,",
    "soutiens", "nos", "bras", "vengeurs!", "Libert\U{00E9},", "Libert\U{00E9}", "cherie,",
    "Combats", "avec", "tes", "d\U{00E9}fenseurs!", "Sous", "nos", "drapeaux,", "que", "la",
    "victoire", "Accoure", "\U{00E0}", "tes", "m\U{00E2}les", "accents!", "Que", "tes",
    "ennemis", "expirants", "Voient", "ton", "triomphe", "et", "notre", "gloire!"
  ]

  const De: seq<string> := [
    "Trittst", "im", "Morgenrot", "daher,", "Seh'ich", "dich", "im", "Strahlenmeer,", "Dich,",
    "du", "Hocherhabener,", "Herrlicher!", "Wenn", "der", "Alpenfirn", "sich", "r\U{00F6}tet,",
    "Betet,", "freie", "Schweizer,", "betet!", "Eure", "fromme", "Seele", "ahnt", "Eure",
    "fromme", "Seele", "ahnt", "Gott", "im", "hehren", "Vaterland,", "Gott,", "den", "Herrn,",
    "im", "hehren", "Vaterland.", "Kommst", "im", "Abendgl\U{00FC}hn", "daher,", "Find'ich",
    "dich", "im", "Sternenheer,", "Dich,", "du", "Menschenfreundlicher,", "Liebender!", "In",
    "des", "Himmels", "lichten", "R\U{00E4}umen", "Kann", "ich", "froh", "und", "selig",
    "tr\U{00E4}umen!", "Denn", "die", "fromme", "Seele", "ahnt", "Denn", "die", "fromme",
    "Seele", "ahnt", "Gott", "im", "hehren", "Vaterland,", "Gott,", "den", "Herrn,", "im",
    "hehren", "Vaterland"
  ]

  const En: seq<string> := [
    "God", "save", "our", "gracious", "Queen,", "Long", "live", "our", "noble", "Queen,",
    "God", "save", "the", "Queen!", "Send", "her", "victorious,", "Happy", "and", "glorious,",
    "Long", "to", "reign", "over", "us;", "God", "save", "the", "Queen!", "O", "Lord,", "our",
    "God", "arise,", "Scatter", "her", "enemies", "And", "make", "them", "fall;", "Confound",
    "their", "politics,", "Frustrate", "their", "knavish", "tricks,", "On", "Thee", "our",
    "hopes", "we", "fix,", "God", "save", "us", "all!", "Thy", "choicest", "gifts", "in",
    "store", "On", "her", "be", "pleased", "to", "pour;", "Long", "may", "she", "reign;",
    "May", "she", "defend", "our", "laws,", "And", "ever", "give", "us", "cause", "To", "sing",
    "with", "heart", "and", "voice,", "God", "save", "the", "Queen!"
  ]

  const Tlh: seq<string> := [
    "\U{F8DB}\U{F8DD}\U{F8D6}", "\U{F8E0}\U{F8D0}\U{F8DE}\U{F8DA}\U{F8D4}\U{F8D6}",
    "\U{F8E7}\U{F8DD}\U{F8E9}",
    "\U{F8E0}\U{F8D0}\U{F8E7}\U{F8E9}\U{F8D9}\U{F8E5}\U{F8E9}\U{F8D2}\U{F8E5}\U{F8D5}",
    "\U{F8E8}\U{F8D0}\U{F8E8}",
    "\U{F8D2}\U{F8D0}\U{F8E6}\U{F8D1}\U{F8D4}\U{F8E9}\U{F8D9}\U{F8E5}\U{F8E9}\U{F8FD}",
    "\U{F8E9}\U{F8D4}\U{F8D8}", "\U{F8E7}\U{F8DD}\U{F8E9}",
    "\U{F8D2}\U{F8DD}\U{F8DF}\U{F8DA}\U{F8D4}\U{F8D6}", "\U{F8DA}\U{F8D0}\U{F8E8}\U{F8E9}",
    "\U{F8D3}\U{F8DD}\U{F8D6}\U{F8D9}\U{F8E5}\U{F8E9}\U{F8D2}\U{F8E5}\U{F8D5}",
    "\U{F8D9}\U{F8E5}\U{F8D8}\U{F8D1}\U{F8D4}\U{F8E9}\U{F8D9}\U{F8E5}\U{F8E9}\U{F8FE}",
    "\U{F8D1}\U{F8DD}\U{F8E1}\U{F8E3}\U{F8D0}\U{F8E2}", "\U{F8D1}\U{F8D7}\U{F8E1}",
    "\U{F8D8}\U{F8D0}\U{F8D1}\U{F8D9}\U{F8E5}\U{F8E9}\U{F8D3}\U{F8D7}\U{F8E9}",
    "\U{F8E1}\U{F8D4}\U{F8D6}", "\U{F8E0}\U{F8D0}\U{F8E0}\U{F8DF}\U{F8E5}\U{F8E9}",
    "\U{F8DB}\U{F8D0}\U{F8E8}\U{F8E9}\U{F8FE}",
    "\U{F8DF}\U{F8D0}\U{F8E2}\U{F8E3}\U{F8D0}\U{F8D6}\U{F8E6}\U{F8D7}\U{F8E2}",
    "\U{F8E7}\U{F8D0}\U{F8E9}", "\U{F8E1}\U{F8D0}\U{F8DA}", "\U{F8D9}\U{F8DD}\U{F8E2}",
    "\U{F8E2}\U{F8D0}\U{F8D3}", "\U{F8D6}\U{F8E5}\U{F8D5}",
    "\U{F8E2}\U{F8D7}\U{F8D8}\U{F8D9}\U{F8D0}\U{F8D6}",
    "\U{F8DF}\U{F8D4}\U{F8E3}\U{F8D1}\U{F8DD}\U{F8D5}", "\U{F8D9}\U{F8DD}\U{F8D3}\U{F8FE}"
  ]
}
