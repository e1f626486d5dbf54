/** `icon(name)`: a closed table from semantic keys to display glyphs, with a
    bullet for every other key. */
module Icons {

  const Bed := "\U{1F6CF}\U{FE0F}"
  const Bath := "\U{1F6C1}"
  const Area := "\U{1F4D0}"
  const Park := "\U{1F697}"
  const Pin := "\U{1F4CD}"
  const Bolt := "\U{26A1}"
  const Shield := "\U{1F6E1}\U{FE0F}"
  const Doc := "\U{1F4C4}"
  const Phone := "\U{1F4DE}"
  const Mail := "\U{2709}\U{FE0F}"

  /** The generic glyph for keys outside the table. */
  const Bullet := "\U{2022}"

  const Glyphs: map<string, string> := map[
    "bed" := Bed, "bath" := Bath, "area" := Area, "park" := Park, "pin" := Pin,
    "bolt" := Bolt, "shield" := Shield, "doc" := Doc, "phone" := Phone, "mail" := Mail
  ]

  /** `icons[name] || '•'`: the table entry when there is a non-empty one,
      the bullet otherwise. */
  function Icon(name: string): (r: string)
    ensures r != []
  {
    if name in Glyphs && Glyphs[name] != "" then Glyphs[name] else Bullet
  }

  /** Each of the ten keys yields its own glyph. */
  lemma IconTable()
    ensures Glyphs.Keys == {"bed", "bath", "area", "park", "pin", "bolt", "shield", "doc", "phone", "mail"}
    ensures Icon("bed") == Bed && Icon("bath") == Bath && Icon("area") == Area
    ensures Icon("park") == Park && Icon("pin") == Pin && Icon("bolt") == Bolt
    ensures Icon("shield") == Shield && Icon("doc") == Doc
    ensures Icon("phone") == Phone && Icon("mail") == Mail
  {
  }

  /** The bullet comes back exactly for the keys outside the table; every
      key inside it has a glyph of its own. */
  lemma IconFallback(name: string)
    ensures Icon(name) == Bullet <==> name !in Glyphs
    ensures name in Glyphs ==> Icon(name) == Glyphs[name]
  {
  }
}
