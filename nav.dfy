/** The navigation bar: one link per registered section, whose class name
    carries the highlighted styling exactly when the link's section is the
    active one. */
module Nav {
  import opened Options
  import opened Sections
  import ClassNames
  import Tracker

  /** Classes every navigation link has. */
  const LinkClass: string := "rounded-full px-3 py-1 text-sm transition"
  /** Classes of the link of the active section. */
  const ActiveClass: string := "bg-zinc-200 text-zinc-900 dark:bg-zinc-700 dark:text-white"
  /** Classes of every other link. */
  const IdleClass: string := "text-zinc-700 hover:bg-zinc-100 dark:text-zinc-200 dark:hover:bg-zinc-800"

  /** The class name of a highlighted link. */
  const HighlightedName: string := LinkClass + " " + ActiveClass
  /** The class name of a link that is not highlighted. */
  const PlainName: string := LinkClass + " " + IdleClass

  /** The class name of the link of section `id` while `active` is the active
      section: the highlighted name exactly when the two ids are equal, the
      plain name otherwise. */
  function LinkClassName(active: string, id: string): (name: string)
    ensures name == HighlightedName <==> active == id
    ensures name == PlainName <==> active != id
  {
    var choice := if active == id then ActiveClass else IdleClass;
    ClassNames.CxPair(LinkClass, choice);
    NamesDiffer();
    ClassNames.Cx([Some(LinkClass), Some(choice)])
  }

  /** The two class names a link can have are different strings. */
  lemma NamesDiffer()
    ensures HighlightedName != PlainName
  {
    var n := |LinkClass| + 1;
    assert HighlightedName[n..] == ActiveClass;
    assert PlainName[n..] == IdleClass;
    assert |ActiveClass| != |IdleClass|;
  }

  /** The class names of the links, one per section, in registry order. */
  function LinkClassNames(active: string, sections: seq<Section>): (names: seq<string>)
    ensures |names| == |sections|
    ensures forall i :: 0 <= i < |sections| ==> names[i] == LinkClassName(active, sections[i].id)
  {
    if sections == [] then [] else [LinkClassName(active, sections[0].id)] + LinkClassNames(active, sections[1..])
  }

  /** With unique section ids, at most one link is highlighted. */
  lemma AtMostOneHighlighted(active: string, sections: seq<Section>, i: nat, j: nat)
    requires Distinct(Ids(sections))
    requires i < |sections| && j < |sections|
    requires LinkClassNames(active, sections)[i] == HighlightedName
    requires LinkClassNames(active, sections)[j] == HighlightedName
    ensures i == j
  {
    var ids := Ids(sections);
    assert ids[i] == active == ids[j];
  }

  /** With unique section ids and an active id that is one of them, exactly
      the link at the active id's position is highlighted. */
  lemma ExactlyOneHighlighted(active: string, sections: seq<Section>, k: nat)
    requires Distinct(Ids(sections))
    requires k < |sections| && sections[k].id == active
    ensures forall i :: 0 <= i < |sections| ==> (LinkClassNames(active, sections)[i] == HighlightedName <==> i == k)
  {
    var ids := Ids(sections);
    assert ids[k] == active;
  }

  /** On the page itself, whatever the layout and scroll position, the link
      of the section the tracker reports is the only highlighted link. */
  lemma TrackerHighlightsOneLink(offsets: seq<Option<int>>, scrollY: int, innerHeight: int, scrollHeight: int)
    requires |offsets| == |Registry|
    ensures var active := Tracker.CurrentSection(Ids(Registry), offsets, scrollY, innerHeight, scrollHeight);
      var k := Tracker.CurrentIndex(offsets, scrollY, innerHeight, scrollHeight);
      k < |Registry| && Registry[k].id == active &&
      forall i :: 0 <= i < |Registry| ==> (LinkClassNames(active, Registry)[i] == HighlightedName <==> i == k)
  {
    RegistryWellFormed();
    var active := Tracker.CurrentSection(Ids(Registry), offsets, scrollY, innerHeight, scrollHeight);
    var k := Tracker.CurrentIndex(offsets, scrollY, innerHeight, scrollHeight);
    ExactlyOneHighlighted(active, Registry, k);
  }

}
