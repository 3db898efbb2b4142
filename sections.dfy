/** The section registry: the ordered list of page sections whose ids are the
    in-page anchors and whose order is the precedence of the active-section
    tracker. */
module Sections {

  datatype Section = Section(id: string, navLabel: string)

  /** The registry as the page declares it, in document order. */
  const Registry: seq<Section> := [
    Section("home", "Home"),
    Section("about", "About"),
    Section("projects", "Projects"),
    Section("skills", "Skills"),
    Section("experience", "Experience"),
    Section("contact", "Contact")
  ]

  /** The active section before any scroll has been observed. */
  const InitialActive: string := "home"

  /** The ids of a list of sections, in the same order. */
  function Ids(sections: seq<Section>): (ids: seq<string>)
    ensures |ids| == |sections|
    ensures forall i :: 0 <= i < |sections| ==> ids[i] == sections[i].id
  {
    if sections == [] then [] else [sections[0].id] + Ids(sections[1..])
  }

  /** No id occurs twice. */
  predicate Distinct(ids: seq<string>) {
    forall i, j :: 0 <= i < j < |ids| ==> ids[i] != ids[j]
  }

  /** The registry is non-empty, its ids are unique (they are DOM element ids),
      and the initial active section is its first section. */
  lemma RegistryWellFormed()
    ensures |Ids(Registry)| == 6
    ensures Distinct(Ids(Registry))
    ensures Ids(Registry)[0] == InitialActive
    ensures Ids(Registry) == ["home", "about", "projects", "skills", "experience", "contact"]
  {
    var ids := Ids(Registry);
    assert ids == ["home", "about", "projects", "skills", "experience", "contact"];
  }

}
