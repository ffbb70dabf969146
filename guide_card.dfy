/** The table of contents of `GuideCard`: the section tree keyed by parent id
    (`buildSectionTree`), the choice of top-level sections, and the nested
    rendering of `SectionItem`s with their depth-dependent open state,
    indentation and content visibility. */
module GuideCard {
  import opened Common
  import opened Records
  import Strings

  // ------------------------------------------------------------ parent ids

  /** `id.includes(".") ? id.substring(0, id.lastIndexOf(".")) : null`. */
  function ParentId(id: string): (r: Option<string>)
    ensures r.Some? <==> '.' in id
    ensures r.Some? ==> |r.value| < |id| && id[..|r.value|] == r.value && id[|r.value|] == '.'
    ensures r.Some? ==> '.' !in id[|r.value| + 1..]
  {
    match Strings.LastIndexOf(id, '.')
    case None => None
    case Some(i) => Some(id[..i])
  }

  /** A section goes under key `k` when its parent id is `k` and `k` is
      truthy (`if (parentId)`). */
  function UnderKey(k: string): Section -> bool
  {
    (s: Section) => k != "" && ParentId(s.id) == Some(k)
  }

  // ------------------------------------------------------------------ tree

  /** `tree.get(k) || []`. */
  function Children(tree: map<string, seq<Section>>, k: string): seq<Section>
  {
    if k in tree then tree[k] else []
  }

  /** The tree after the loop has visited `sections`, in order. */
  function TreeOf(sections: seq<Section>): map<string, seq<Section>>
  {
    if sections == [] then map[]
    else
      var t := TreeOf(sections[..|sections| - 1]);
      var s := sections[|sections| - 1];
      var p := ParentId(s.id);
      if Truthy(p) then t[p.value := Children(t, p.value) + [s]] else t
  }

  /** `buildSectionTree(sections)`. */
  method BuildSectionTree(sections: seq<Section>) returns (tree: map<string, seq<Section>>)
    ensures tree == TreeOf(sections)
  {
    tree := map[];
    var i := 0;
    while i < |sections|
      invariant 0 <= i <= |sections|
      invariant tree == TreeOf(sections[..i])
    {
      var section := sections[i];
      assert sections[..i + 1][..i] == sections[..i];
      var parentId := ParentId(section.id);
      if parentId.Some? && parentId.value != "" {
        var children := Children(tree, parentId.value);
        children := children + [section];
        tree := tree[parentId.value := children];
      }
      i := i + 1;
    }
    assert sections[..i] == sections;
  }

  /** The list under key `k` holds exactly the sections whose parent id is
      `k`, in input order; the falsy key `""` holds nothing. */
  lemma {:induction false} TreeChildren(sections: seq<Section>, k: string)
    ensures Children(TreeOf(sections), k) == Filter(sections, UnderKey(k))
  {
    if sections != [] {
      var init := sections[..|sections| - 1];
      var s := sections[|sections| - 1];
      assert sections == init + [s];
      TreeChildren(init, k);
      FilterAppend(init, [s], UnderKey(k));
      assert [s][1..] == [];
    }
  }

  /** Every section whose parent id is truthy lies in exactly one list: the
      list of that parent id. */
  lemma ExactlyOneList(sections: seq<Section>, s: Section, k: string)
    requires s in sections && Truthy(ParentId(s.id))
    ensures s in Children(TreeOf(sections), k) <==> k == ParentId(s.id).value
  {
    TreeChildren(sections, k);
  }

  /** Sections without a `.` in their id, and those whose last `.` is the
      first character (such as `.1`, whose parent id is `""`), are in no list. */
  lemma DroppedSections(sections: seq<Section>, s: Section, k: string)
    requires '.' !in s.id || Strings.LastIndexOf(s.id, '.') == Some(0)
    ensures s !in Children(TreeOf(sections), k)
  {
    TreeChildren(sections, k);
  }

  /** A child listed under `k` is one of the sections, and its id is `k`,
      a `.`, then a suffix without `.`; so it is longer than `k`. */
  lemma ChildrenExtendKey(sections: seq<Section>, k: string)
    ensures forall c :: c in Children(TreeOf(sections), k) ==>
      c in sections && |c.id| > |k| && c.id[..|k|] == k && c.id[|k|] == '.' && '.' !in c.id[|k| + 1..]
  {
    TreeChildren(sections, k);
    var cs := Children(TreeOf(sections), k);
    forall c | c in cs
      ensures c in sections && |c.id| > |k| && c.id[..|k|] == k && c.id[|k|] == '.' && '.' !in c.id[|k| + 1..]
    {
      var i :| 0 <= i < |cs| && cs[i] == c;
      assert UnderKey(k)(cs[i]);
    }
  }

  // ---------------------------------------------------------- top sections

  /** `guide.sections.filter(s => s.level === level)`. */
  function LevelSections(sections: seq<Section>, level: int): seq<Section>
  {
    Filter(sections, (s: Section) => s.level == level)
  }

  /** The level list is empty exactly when no section has that level. */
  lemma LevelSectionsEmpty(sections: seq<Section>, level: int)
    ensures LevelSections(sections, level) == [] <==> forall s :: s in sections ==> s.level != level
  {
    var r := LevelSections(sections, level);
    if r != [] {
      assert r[0] in r;
    }
  }

  /** The level-1 sections if any section has level 1, else the level-2
      sections if any has level 2, else the level-3 sections. */
  function TopLevelSections(sections: seq<Section>): (r: seq<Section>)
    ensures (exists s :: s in sections && s.level == 1) ==> r == LevelSections(sections, 1)
    ensures (forall s :: s in sections ==> s.level != 1) && (exists s :: s in sections && s.level == 2)
        ==> r == LevelSections(sections, 2)
    ensures (forall s :: s in sections ==> s.level != 1 && s.level != 2) ==> r == LevelSections(sections, 3)
    ensures forall i :: 0 <= i < |r| ==> r[i] in sections
  {
    LevelSectionsEmpty(sections, 1);
    LevelSectionsEmpty(sections, 2);
    var level1 := LevelSections(sections, 1);
    var level2 := LevelSections(sections, 2);
    if |level1| > 0 then level1
    else if |level2| > 0 then level2
    else LevelSections(sections, 3)
  }

  // ------------------------------------------------------------- rendering

  /** The state and layout of one `SectionItem`. */
  datatype Item = Item(section: Section, depth: nat, open: bool, padding: nat,
                       contentPadding: nat, hasContent: bool)

  /** A rendered section and its rendered children. */
  datatype Rendered = Rendered(item: Item, children: seq<Rendered>)

  /** `SectionItem` at a depth: open at first only at the top, indented 12
      pixels per level (its content 24 more), and showing its content only
      when it is longer than 50 characters. */
  function SectionItem(section: Section, depth: nat): (r: Item)
    ensures r.section == section && r.depth == depth
    ensures r.open <==> depth == 0
    ensures r.padding == 12 * depth && r.contentPadding == r.padding + 24
    ensures r.hasContent <==> |section.content| > 50
  {
    Item(section, depth, depth == 0, depth * 12, depth * 12 + 24,
         section.content != "" && |section.content| > 50)
  }

  /** The longest section id. */
  function MaxIdLength(sections: seq<Section>): (m: nat)
    ensures forall s :: s in sections ==> |s.id| <= m
  {
    if sections == [] then 0
    else
      var m := MaxIdLength(sections[1..]);
      assert forall s :: s in sections ==> s == sections[0] || s in sections[1..];
      if |sections[0].id| > m then |sections[0].id| else m
  }

  /** `renderSection(section, depth)`: the section's item, then its children
      in tree order, each one level deeper. Every child id extends its
      parent's, so the recursion ends. */
  function RenderSection(sections: seq<Section>, tree: map<string, seq<Section>>, section: Section, depth: nat): (r: Rendered)
    requires tree == TreeOf(sections) && section in sections
    ensures r.item == SectionItem(section, depth)
    ensures |r.children| == |Children(tree, section.id)|
    ensures forall i :: 0 <= i < |r.children| ==>
      r.children[i].item.section == Children(tree, section.id)[i] && r.children[i].item.depth == depth + 1
    decreases MaxIdLength(sections) - |section.id|
  {
    var cs := Children(tree, section.id);
    ChildrenExtendKey(sections, section.id);
    assert forall i :: 0 <= i < |cs| ==> cs[i] in cs;
    Rendered(SectionItem(section, depth),
             seq(|cs|, i requires 0 <= i < |cs| => RenderSection(sections, tree, cs[i], depth + 1)))
  }

  /** The table of contents: every top-level section rendered at depth 0,
      hence open. */
  function RenderContents(sections: seq<Section>): (r: seq<Rendered>)
    ensures |r| == |TopLevelSections(sections)|
    ensures forall i :: 0 <= i < |r| ==>
      r[i].item.section == TopLevelSections(sections)[i] && r[i].item.depth == 0 && r[i].item.open
  {
    var tree := TreeOf(sections);
    var top := TopLevelSections(sections);
    seq(|top|, i requires 0 <= i < |top| => RenderSection(sections, tree, top[i], 0))
  }
}
