/**
 * The categories registered when db_backend/events.py is loaded.
 */
module EventRegistrations {
  import opened Events

  /** The registrations made when the module is loaded, in order. */
  function InitialCategories(): map<int, Category> {
    map[0 := Category(0, "none", "Keine"),
        1 := Category(1, "party", "Party"),
        2 := Category(2, "culture", "Kunst oder Kultur"),
        3 := Category(3, "club", "Kneipe oder Club"),
        4 := Category(4, "relax", "Freizeit oder Erholung"),
        5 := Category(5, "studentclub", "Studentenclubs"),
        6 := Category(6, "studentday", "Dresdner Studententage"),
        7 := Category(7, "science", "Forschung und Wissen")]
  }

  function InitialTags(): map<string, int> {
    map["none" := 0, "party" := 1, "culture" := 2, "club" := 3,
        "relax" := 4, "studentclub" := 5, "studentday" := 6, "science" := 7]
  }

  /** The module-level `make` calls, in source order, on the empty registry. */
  method Initial() returns (reg: Registry)
    ensures fresh(reg) && reg.Valid()
    ensures reg.categories == InitialCategories() && reg.tags == InitialTags()
  {
    reg := new Registry();
    reg.Make(0, "none", "Keine");
    reg.Make(1, "party", "Party");
    reg.Make(2, "culture", "Kunst oder Kultur");
    reg.Make(3, "club", "Kneipe oder Club");
    reg.Make(4, "relax", "Freizeit oder Erholung");
    reg.Make(5, "studentclub", "Studentenclubs");
    reg.Make(6, "studentday", "Dresdner Studententage");
    reg.Make(7, "science", "Forschung und Wissen");
  }

  /** The initial registry: ids 0 to 7, each reachable from its own, distinct, tag. */
  lemma InitialRegistry()
    ensures forall id :: id in InitialCategories() <==> 0 <= id < 8
    ensures forall id :: id in InitialCategories() ==>
              InitialCategories()[id].id == id &&
              InitialCategories()[id].tag in InitialTags() &&
              InitialTags()[InitialCategories()[id].tag] == id
    ensures forall tag :: tag in InitialTags() ==>
              InitialTags()[tag] in InitialCategories() && InitialCategories()[InitialTags()[tag]].tag == tag
  {
  }

  /** Every initial category is found by its tag. */
  lemma InitialByTag(reg: Registry, id: int)
    requires reg.categories == InitialCategories() && reg.tags == InitialTags()
    requires 0 <= id < 8
    ensures reg.ByTag(InitialCategories()[id].tag) == reg.ById(id) == InitialCategories()[id]
  {
    InitialRegistry();
  }

}
