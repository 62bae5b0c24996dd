/**
 * The project sidebar: the list of open projects, toggled one project at a
 * time, and the name filter over the example projects.
 */
module ProjectSidebar {
  import opened Strings
  import opened Lists

  datatype Project = Project(id: int, name: string)

  /** The projects open when the sidebar first renders. */
  const DefaultOpen: seq<int> := [1]

  /** `toggleProject`: close an open project (every entry of it), or open a closed one at the end. */
  function ToggleProject(open: seq<int>, id: int): seq<int> {
    if id in open then Filter(open, (x: int) => x != id) else open + [id]
  }

  /** A toggle flips the project's membership and no other's. */
  lemma ToggleMembership(open: seq<int>, id: int, other: int)
    ensures id in ToggleProject(open, id) <==> id !in open
    ensures other != id ==> (other in ToggleProject(open, id) <==> other in open)
  {
    FilterMembers(open, (x: int) => x != id, id);
    FilterMembers(open, (x: int) => x != id, other);
  }

  /** The other projects keep their relative order. */
  lemma ToggleKeepsOthers(open: seq<int>, id: int)
    ensures Filter(ToggleProject(open, id), (x: int) => x != id) == Filter(open, (x: int) => x != id)
  {
    var keep := (x: int) => x != id;
    if id in open {
      var f := Filter(open, keep);
      assert forall i :: 0 <= i < |f| ==> keep(f[i]) by {
        forall i | 0 <= i < |f| ensures keep(f[i]) {
          assert f[i] in f;
        }
      }
      FilterAll(f, keep);
    } else {
      FilterAppend(open, [id], keep);
      assert Filter([id], keep) == [];
    }
  }

  /** Toggling twice restores the membership, and restores the list itself when the project was closed. */
  lemma ToggleTwice(open: seq<int>, id: int)
    ensures id in ToggleProject(ToggleProject(open, id), id) <==> id in open
    ensures id !in open ==> ToggleProject(ToggleProject(open, id), id) == open
  {
    ToggleMembership(open, id, id);
    ToggleMembership(ToggleProject(open, id), id, id);
    if id !in open {
      var keep := (x: int) => x != id;
      FilterAppend(open, [id], keep);
      assert Filter([id], keep) == [];
      FilterAll(open, keep);
    }
  }

  /** A duplicate-free list of open projects stays duplicate-free. */
  lemma ToggleNoDup(open: seq<int>, id: int)
    requires NoDup(open)
    ensures NoDup(ToggleProject(open, id))
  {
    if id in open {
      FilterNoDup(open, (x: int) => x != id);
    }
  }

  /** The open list after the user toggles `ids` in turn. */
  function Toggles(open: seq<int>, ids: seq<int>): seq<int>
    decreases |ids|
  {
    if ids == [] then open else Toggles(ToggleProject(open, ids[0]), ids[1..])
  }

  lemma {:induction false} TogglesNoDup(open: seq<int>, ids: seq<int>)
    requires NoDup(open)
    ensures NoDup(Toggles(open, ids))
    decreases |ids|
  {
    if ids != [] {
      ToggleNoDup(open, ids[0]);
      TogglesNoDup(ToggleProject(open, ids[0]), ids[1..]);
    }
  }

  /** Whatever the user toggles, the open list never holds a project twice. */
  lemma OpenListNoDup(ids: seq<int>)
    ensures NoDup(Toggles(DefaultOpen, ids))
  {
    TogglesNoDup(DefaultOpen, ids);
  }

  /** Case-insensitive containment of the query in a project's name. */
  predicate NameMatches(p: Project, query: string) {
    Contains(ToLower(p.name), ToLower(query))
  }

  /** `filteredProjects`. */
  function FilterProjects(projects: seq<Project>, query: string): seq<Project> {
    Filter(projects, (p: Project) => NameMatches(p, query))
  }

  /** A project is listed exactly when its lower-cased name contains the lower-cased query. */
  lemma FilterProjectsIff(projects: seq<Project>, query: string, project: Project)
    ensures project in FilterProjects(projects, query) ==>
      project in projects && exists k :: OccursAt(ToLower(project.name), ToLower(query), k)
    ensures project in projects && (exists k :: OccursAt(ToLower(project.name), ToLower(query), k)) ==>
      project in FilterProjects(projects, query)
  {
    FilterMembers(projects, (p: Project) => NameMatches(p, query), project);
    ContainsIff(ToLower(project.name), ToLower(query));
  }

  /** An empty search lists every project, in order. */
  lemma EmptyQueryListsAll(projects: seq<Project>)
    ensures FilterProjects(projects, "") == projects
  {
    forall i | 0 <= i < |projects| ensures NameMatches(projects[i], "") {
      ContainsEmpty(ToLower(projects[i].name));
    }
    FilterAll(projects, (p: Project) => NameMatches(p, ""));
  }
}
