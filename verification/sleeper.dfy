/**
  `get_sleeper_players` (app.py:24-28): the Sleeper player catalogue, an object
  from player id to player record, turned into a dictionary from the display
  name "first last" to the player id. Only players flagged active enter it, and
  when two active players share a name the later one in the catalogue wins,
  as in any Python dict comprehension. The HTTP request and the one-hour cache
  around it are not part of this model: the catalogue is a parameter.
 */
module Sleeper {

  /** The fields of a Sleeper player record that the comprehension reads. */
  datatype SleeperPlayer = SleeperPlayer(firstName: string, lastName: string, active: bool)

  /** A catalogue entry: the player id (the JSON key) and its record. */
  type Entry = (string, SleeperPlayer)

  /** The key the comprehension builds: first name, one space, last name. */
  function FullName(p: SleeperPlayer): string
  {
    p.firstName + " " + p.lastName
  }

  /** An entry the comprehension keeps under `name`. */
  predicate ActiveNamed(e: Entry, name: string)
  {
    e.1.active && FullName(e.1) == name
  }

  /** Entry `i` is the last entry the comprehension keeps under `name`. */
  predicate IsLastActiveNamed(catalog: seq<Entry>, i: int, name: string)
  {
    && 0 <= i < |catalog|
    && ActiveNamed(catalog[i], name)
    && forall j :: i < j < |catalog| ==> !ActiveNamed(catalog[j], name)
  }

  /**
    The name-to-id dictionary, built in catalogue order so that later entries
    overwrite earlier ones; it never has more names than the catalogue has entries.
   */
  function NameToId(catalog: seq<Entry>): (m: map<string, string>)
    ensures |m| <= |catalog|
  {
    if catalog == [] then map[]
    else
      var m := NameToId(catalog[..|catalog| - 1]);
      var e := catalog[|catalog| - 1];
      if e.1.active then m[FullName(e.1) := e.0] else m
  }

  /** A name is a key exactly when some active player in the catalogue carries it. */
  lemma {:induction false} NameToIdKeys(catalog: seq<Entry>)
    ensures forall name :: name in NameToId(catalog) <==>
      exists i :: 0 <= i < |catalog| && ActiveNamed(catalog[i], name)
  {
    if catalog != [] {
      var init := catalog[..|catalog| - 1];
      var e := catalog[|catalog| - 1];
      var n := |catalog| - 1;
      NameToIdKeys(init);
      var m, m0 := NameToId(catalog), NameToId(init);
      assert m == if e.1.active then m0[FullName(e.1) := e.0] else m0;
      forall name | exists i :: 0 <= i < |catalog| && ActiveNamed(catalog[i], name)
        ensures name in m
      {
        var i :| 0 <= i < |catalog| && ActiveNamed(catalog[i], name);
        if i < n {
          assert ActiveNamed(init[i], name);
          assert name in m0;
        } else {
          assert name == FullName(e.1);
        }
      }
      forall name | name in m
        ensures exists i :: 0 <= i < |catalog| && ActiveNamed(catalog[i], name)
      {
        if !ActiveNamed(e, name) {
          assert name in m0;
          var i :| 0 <= i < |init| && ActiveNamed(init[i], name);
          assert catalog[i] == init[i];
        }
      }
    }
  }

  /** The id stored under a name is the id of the last active player in the catalogue with that name. */
  lemma {:induction false} NameToIdLastWins(catalog: seq<Entry>)
    ensures forall name :: name in NameToId(catalog) ==>
      exists i :: IsLastActiveNamed(catalog, i, name) && NameToId(catalog)[name] == catalog[i].0
  {
    if catalog != [] {
      var init := catalog[..|catalog| - 1];
      var e := catalog[|catalog| - 1];
      var n := |catalog| - 1;
      NameToIdLastWins(init);
      var m, m0 := NameToId(catalog), NameToId(init);
      assert m == if e.1.active then m0[FullName(e.1) := e.0] else m0;
      forall name | name in m
        ensures exists i :: IsLastActiveNamed(catalog, i, name) && m[name] == catalog[i].0
      {
        if ActiveNamed(e, name) {
          assert IsLastActiveNamed(catalog, n, name);
        } else {
          assert name in m0 && m[name] == m0[name];
          var i :| IsLastActiveNamed(init, i, name) && m0[name] == init[i].0;
          assert catalog[i] == init[i];
          assert IsLastActiveNamed(catalog, i, name);
        }
      }
    }
  }

  /** Inactive players never reach the dictionary, whatever else the catalogue holds. */
  lemma {:induction false} InactiveIgnored(catalog: seq<Entry>, id: string, p: SleeperPlayer)
    requires !p.active
    ensures NameToId(catalog + [(id, p)]) == NameToId(catalog)
  {
    assert (catalog + [(id, p)])[..|catalog|] == catalog;
  }

  /** Two active namesakes: the dictionary keeps the id of the one listed later. */
  lemma {:induction false} LaterNamesakeWins(catalog: seq<Entry>, id1: string, id2: string, p1: SleeperPlayer, p2: SleeperPlayer)
    requires p1.active && p2.active && FullName(p1) == FullName(p2)
    ensures NameToId(catalog + [(id1, p1), (id2, p2)])[FullName(p1)] == id2
  {
    var c := catalog + [(id1, p1), (id2, p2)];
    assert c[..|c| - 1] == catalog + [(id1, p1)];
  }
}
