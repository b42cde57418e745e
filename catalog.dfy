/** The static achievement catalog (`ACHIEVEMENT_DEFS`): twenty entries, in the
    fixed order in which the evaluator visits them. */
module AchievementDefs {
  import opened Types

  /** What the engine reads of each entry, in catalog order. */
  const Catalog: seq<AchievementRule> := [
    // Writing
    AchievementRule("first-words", Writing, 200, 100),
    AchievementRule("wordsmith", Writing, 1000, 200),
    AchievementRule("novelist", Writing, 5000, 500),
    AchievementRule("prolific", Writing, 10000, 1000),
    AchievementRule("marathon", Writing, 20000, 2000),
    // Markdown
    AchievementRule("bold-move", Markdown, 20, 100),
    AchievementRule("heading-master", Markdown, 40, 200),
    AchievementRule("link-builder", Markdown, 30, 200),
    AchievementRule("code-ninja", Markdown, 20, 200),
    AchievementRule("list-lover", Markdown, 40, 200),
    AchievementRule("format-explorer", Markdown, 10, 300),
    // Productivity
    AchievementRule("first-save", Productivity, 1, 100),
    AchievementRule("saver", Productivity, 20, 400),
    AchievementRule("time-10", Productivity, 1200000, 100),
    AchievementRule("time-60", Productivity, 7200000, 400),
    AchievementRule("streak-3", Productivity, 6, 300),
    AchievementRule("streak-7", Productivity, 14, 1000),
    // Special
    AchievementRule("format-master", Special, 10, 300),
    AchievementRule("perfectionist", Special, 100, 500),
    AchievementRule("brave-ace", Special, 1, 2000)
  ]

  /** What a toast shows of each entry, in the same order. */
  const Texts: seq<AchievementText> := [
    // Writing
    AchievementText("Primeras Palabras", "Escribe tus primeras 200 palabras", "✏️"),
    AchievementText("Escritor", "Escribe 1,000 palabras en total", "📝"),
    AchievementText("Novelista", "Escribe 5,000 palabras en total", "📖"),
    AchievementText("Prolífico", "Escribe 10,000 palabras en total", "🏆"),
    AchievementText("Maratonista", "Escribe 20,000 palabras en total", "🏅"),
    // Markdown
    AchievementText("Movimiento Audaz", "Usa negrita 20 veces", "🅱️"),
    AchievementText("Maestro de Títulos", "Usa encabezados 40 veces", "📋"),
    AchievementText("Constructor de Enlaces", "Inserta 30 enlaces", "🔗"),
    AchievementText("Ninja del Código", "Usa bloques de código 20 veces", "💻"),
    AchievementText("Amante de Listas", "Crea 40 listas", "📃"),
    AchievementText("Explorador de Formato", "Usa 10 tipos de formato diferentes", "🎨"),
    // Productivity
    AchievementText("Primera Guardada", "Guarda tu primer documento", "💾"),
    AchievementText("Guardián", "Guarda 20 documentos", "🗄️"),
    AchievementText("20 Minutos", "Pasa 20 minutos editando", "⏱️"),
    AchievementText("2 Horas", "Pasa 2 horas editando", "🕐"),
    AchievementText("Racha de 6", "Mantén una racha de 6 días", "🔥"),
    AchievementText("Racha de 14", "Mantén una racha de 14 días", "🔥"),
    // Special
    AchievementText("Explorador", "Usa todos los botones de formato", "🎨"),
    AchievementText("Perfeccionista", "Edita un documento más de 100 veces", "🎯"),
    AchievementText("As de Braves", "Consigue todos los logros", "🚀")
  ]

  const BraveAce: string := "brave-ace"
  const Perfectionist: string := "perfectionist"

  /** No two entries of `defs` share an id. */
  predicate DistinctIds(defs: seq<AchievementRule>)
  {
    forall i, j :: 0 <= i < j < |defs| ==> defs[i].id != defs[j].id
  }

  /** `find` by id: the position of the first entry of `defs` with `id`, or
      -1 when no entry has it. */
  function IndexOfId(defs: seq<AchievementRule>, id: string): (k: int)
    ensures -1 <= k < |defs|
    ensures k >= 0 ==> defs[k].id == id
  {
    IndexFrom(defs, id, 0)
  }

  /** The entry `find` returns is the first one with the id, and nothing is
      found exactly when no entry has it. */
  lemma IndexOfIdFirst(defs: seq<AchievementRule>, id: string)
    ensures IndexOfId(defs, id) >= 0 ==> forall j :: 0 <= j < IndexOfId(defs, id) ==> defs[j].id != id
    ensures IndexOfId(defs, id) == -1 <==> forall j :: 0 <= j < |defs| ==> defs[j].id != id
  {
    IndexFromFirst(defs, id, 0);
  }

  lemma {:induction false} IndexFromFirst(defs: seq<AchievementRule>, id: string, from: nat)
    requires from <= |defs|
    ensures IndexFrom(defs, id, from) >= 0 ==>
      forall j :: from <= j < IndexFrom(defs, id, from) ==> defs[j].id != id
    decreases |defs| - from
  {
    if from < |defs| && defs[from].id != id {
      IndexFromFirst(defs, id, from + 1);
    }
  }

  function IndexFrom(defs: seq<AchievementRule>, id: string, from: nat): (k: int)
    requires from <= |defs|
    ensures -1 <= k < |defs|
    ensures k >= 0 ==> from <= k && defs[k].id == id
    ensures k == -1 <==> forall j :: from <= j < |defs| ==> defs[j].id != id
    decreases |defs| - from
  {
    if from == |defs| then -1
    else if defs[from].id == id then from
    else IndexFrom(defs, id, from + 1)
  }

  /** With distinct ids, an entry's position is found from its id. */
  lemma IndexOfEntry(defs: seq<AchievementRule>, j: int)
    requires DistinctIds(defs) && 0 <= j < |defs|
    ensures IndexOfId(defs, defs[j].id) == j
  {
  }

  /** An id that only entries before `n` can carry is found before `n`. */
  lemma IndexBelow(defs: seq<AchievementRule>, id: string, n: nat)
    requires n <= |defs|
    requires forall j :: n <= j < |defs| ==> defs[j].id != id
    ensures IndexOfId(defs, id) < n
  {
  }

  /** The position of `id` in the catalog, or -1 when it is not a catalog id. */
  function CatalogIndex(id: string): int
  {
    IndexOfId(Catalog, id)
  }

  predicate IsCatalogId(id: string)
  {
    IndexOfId(Catalog, id) >= 0
  }

  /** Catalog entry `i` with its texts, as `ACHIEVEMENT_DEFS[i]`. */
  function Entry(i: nat): (d: AchievementDef)
    requires i < |Catalog|
    ensures d.id == Catalog[i].id && d.target == Catalog[i].target && d.xpReward == Catalog[i].xpReward
    ensures d.category == Catalog[i].category
  {
    TextsAlign();
    var r, t := Catalog[i], Texts[i];
    AchievementDef(r.id, t.name, t.description, t.icon, r.category, r.target, r.xpReward)
  }

  /** The definition with the given id (`ACHIEVEMENT_DEFS.find(...)!`). */
  function DefOf(id: string): (d: AchievementDef)
    requires IsCatalogId(id)
    ensures d.id == id && d.xpReward == Catalog[CatalogIndex(id)].xpReward
  {
    Entry(CatalogIndex(id))
  }

  lemma CatalogSize()
    ensures |Catalog| == 20
  {
  }

  /** Every entry has its texts. */
  lemma TextsAlign()
    ensures |Texts| == |Catalog|
  {
  }

  /** No two catalog entries share an id. */
  lemma CatalogIdsDistinct()
    ensures DistinctIds(Catalog)
  {
    IdsDistinctFrom(0, 5);
    IdsDistinctFrom(5, 10);
    IdsDistinctFrom(10, 15);
    IdsDistinctFrom(15, 20);
  }

  lemma IdsDistinctFrom(lo: nat, hi: nat)
    requires lo <= hi <= |Catalog|
    ensures forall i, j :: lo <= i < hi && i < j < |Catalog| ==> Catalog[i].id != Catalog[j].id
  {
  }

  /** Every target can be reached by a count and every reward is a gain. */
  lemma TargetsAndRewardsPositive()
    ensures forall i :: 0 <= i < |Catalog| ==> Catalog[i].target >= 1 && Catalog[i].xpReward > 0
  {
  }

  /** The five writing milestones come first and climb strictly. */
  lemma WritingTargetsIncrease()
    ensures forall i :: 0 <= i < 5 ==> Catalog[i].category == Writing
    ensures forall i, j :: 0 <= i < j < 5 ==> Catalog[i].target < Catalog[j].target
  {
  }

  /** The categories are contiguous blocks in catalog order. */
  lemma CategoriesGrouped()
    ensures forall i :: 0 <= i < 5 ==> Catalog[i].category == Writing
    ensures forall i :: 5 <= i < 11 ==> Catalog[i].category == Markdown
    ensures forall i :: 11 <= i < 17 ==> Catalog[i].category == Productivity
    ensures forall i :: 17 <= i < 20 ==> Catalog[i].category == Special
  {
  }

  /** The meta-achievement is the last entry, right after `perfectionist`. */
  lemma SpecialEntries()
    ensures Catalog[|Catalog| - 1].id == BraveAce && Catalog[|Catalog| - 1].target == 1
    ensures Catalog[18].id == Perfectionist && Catalog[18].target == 100
    ensures CatalogIndex(BraveAce) == 19 && CatalogIndex(Perfectionist) == 18
  {
    CatalogIdsDistinct();
    IndexOfEntry(Catalog, 19);
    IndexOfEntry(Catalog, 18);
  }
}
