/** The survey recipient selector (src/lib/hooks/use-survey-selectors.ts):
    three option lists (groups, locations, assignees), three selections and
    a loading flag. Changing a selection clears the selections below it, and
    effects refill the option lists from the backend whenever a selection
    they depend on changes.

    The backend is a parameter: `fetchLocations` answers the locations
    query for a list of location ids, `assignable` answers the
    `get_assignable_users` call for one group and one location. */
module SurveySelectors {
  import opened Basics

  datatype Group = Group(id: string, name: string, locationId: string, managerId: string)
  datatype Location = Location(id: string, name: string)
  datatype Assignee = Assignee(id: string, firstName: string, lastName: string, email: string, groupId: string)

  /** The location ids the locations query asks for: the `location_id` of
      every loaded group whose id is selected, in the order of the groups. */
  function LocationRequestIds(groups: seq<Group>, selected: seq<string>): (ids: seq<string>)
    ensures |ids| <= |groups|
  {
    if |groups| == 0 then []
    else (if groups[0].id in selected then [groups[0].locationId] else [])
         + LocationRequestIds(groups[1..], selected)
  }

  /** The arguments of the assignees call: the first selected group and the
      first selected location, or no call at all when either selection is
      empty. */
  function AssigneeRequest(selectedGroups: seq<string>, selectedLocations: seq<string>): (q: Option<(string, string)>)
    ensures q.None? <==> |selectedGroups| == 0 || |selectedLocations| == 0
    ensures q.Some? ==> q.value == (selectedGroups[0], selectedLocations[0])
  {
    if |selectedLocations| == 0 || |selectedGroups| == 0 then None
    else Some((selectedGroups[0], selectedLocations[0]))
  }

  /** The location options after the locations effect has run. */
  function NextLocations(groups: seq<Group>, selectedGroups: seq<string>,
                         fetchLocations: seq<string> -> Result<seq<Location>, string>,
                         current: seq<Location>): (r: seq<Location>)
    ensures |selectedGroups| == 0 ==> r == []
    ensures |selectedGroups| > 0 ==>
      var answer := fetchLocations(LocationRequestIds(groups, selectedGroups));
      r == if answer.Ok? then answer.value else current
  {
    if |selectedGroups| == 0 then []
    else match fetchLocations(LocationRequestIds(groups, selectedGroups))
      case Ok(data) => data
      case Err(_) => current
  }

  /** The assignee options after the assignees effect has run. A null answer
      counts as no assignees; a failed call keeps the current list. */
  function NextAssignees(selectedGroups: seq<string>, selectedLocations: seq<string>,
                         assignable: (string, string) -> Result<Option<seq<Assignee>>, string>,
                         current: seq<Assignee>): (r: seq<Assignee>)
    ensures |selectedGroups| == 0 || |selectedLocations| == 0 ==> r == []
    ensures |selectedGroups| > 0 && |selectedLocations| > 0 ==>
      var answer := assignable(selectedGroups[0], selectedLocations[0]);
      r == if answer.Err? then current else if answer.value.Some? then answer.value.value else []
  {
    match AssigneeRequest(selectedGroups, selectedLocations)
    case None => []
    case Some((g, l)) =>
      match assignable(g, l)
      case Ok(Some(data)) => data
      case Ok(None) => []
      case Err(_) => current
  }

  /** The state cells of the hook. */
  class Selectors {
    var groups: seq<Group>
    var locations: seq<Location>
    var assignees: seq<Assignee>
    var selectedGroups: seq<string>
    var selectedLocations: seq<string>
    var selectedAssignees: seq<string>
    var loading: bool

    /** Everything starts empty, and the hook is loading. */
    constructor ()
      ensures groups == [] && locations == [] && assignees == []
      ensures selectedGroups == [] && selectedLocations == [] && selectedAssignees == []
      ensures loading
    {
      groups, locations, assignees := [], [], [];
      selectedGroups, selectedLocations, selectedAssignees := [], [], [];
      loading := true;
    }

    /** `handleGroupsChange`: the new group selection; locations and
        assignees are deselected. */
    method HandleGroupsChange(groupIds: seq<string>)
      modifies this
      ensures selectedGroups == groupIds && selectedLocations == [] && selectedAssignees == []
      ensures groups == old(groups) && locations == old(locations) && assignees == old(assignees)
      ensures loading == old(loading)
    {
      selectedGroups := groupIds;
      selectedLocations := [];
      selectedAssignees := [];
    }

    /** `handleLocationsChange`: the new location selection; assignees are
        deselected, the group selection stays. */
    method HandleLocationsChange(locationIds: seq<string>)
      modifies this
      ensures selectedLocations == locationIds && selectedAssignees == []
      ensures selectedGroups == old(selectedGroups)
      ensures groups == old(groups) && locations == old(locations) && assignees == old(assignees)
      ensures loading == old(loading)
    {
      selectedLocations := locationIds;
      selectedAssignees := [];
    }

    /** `handleAssigneesChange`: only the assignee selection changes. */
    method HandleAssigneesChange(assigneeIds: seq<string>)
      modifies this
      ensures selectedAssignees == assigneeIds
      ensures selectedGroups == old(selectedGroups) && selectedLocations == old(selectedLocations)
      ensures groups == old(groups) && locations == old(locations) && assignees == old(assignees)
      ensures loading == old(loading)
    {
      selectedAssignees := assigneeIds;
    }

    /** The first effect: on success the groups are stored and loading ends;
        on an error nothing changes, so the hook stays loading. */
    method LoadGroups(response: Result<seq<Group>, string>)
      modifies this
      ensures response.Ok? ==> groups == response.value && !loading
      ensures response.Err? ==> groups == old(groups) && loading == old(loading)
      ensures locations == old(locations) && assignees == old(assignees)
      ensures selectedGroups == old(selectedGroups) && selectedLocations == old(selectedLocations)
      ensures selectedAssignees == old(selectedAssignees)
    {
      if response.Ok? {
        groups := response.value;
        loading := false;
      }
    }

    /** The locations effect: no selected group empties the options without
        a query; otherwise the answer to the query for the selected groups'
        locations replaces them, unless it is an error. */
    method LoadLocations(fetchLocations: seq<string> -> Result<seq<Location>, string>)
      modifies this
      ensures locations == NextLocations(groups, selectedGroups, fetchLocations, old(locations))
      ensures groups == old(groups) && assignees == old(assignees) && loading == old(loading)
      ensures selectedGroups == old(selectedGroups) && selectedLocations == old(selectedLocations)
      ensures selectedAssignees == old(selectedAssignees)
    {
      if |selectedGroups| == 0 {
        locations := [];
        return;
      }
      var ids := LocationRequestIds(groups, selectedGroups);
      var answer := fetchLocations(ids);
      if answer.Err? {
        return;
      }
      locations := answer.value;
    }

    /** The assignees effect: no selected group or no selected location
        empties the options without a call; otherwise the answer for the
        first selected group and location replaces them (null meaning
        none), unless the call fails. */
    method LoadAssignees(assignable: (string, string) -> Result<Option<seq<Assignee>>, string>)
      modifies this
      ensures assignees == NextAssignees(selectedGroups, selectedLocations, assignable, old(assignees))
      ensures groups == old(groups) && locations == old(locations) && loading == old(loading)
      ensures selectedGroups == old(selectedGroups) && selectedLocations == old(selectedLocations)
      ensures selectedAssignees == old(selectedAssignees)
    {
      if |selectedLocations| == 0 || |selectedGroups| == 0 {
        assignees := [];
        return;
      }
      var answer := assignable(selectedGroups[0], selectedLocations[0]);
      if answer.Err? {
        return;
      }
      assignees := if answer.value.Some? then answer.value.value else [];
    }

    /** A new group selection followed by the two effects that depend on it:
        no location and no assignee is selected any more, so the assignee
        options are empty, and the location options follow the new groups. */
    method GroupsChanged(groupIds: seq<string>,
                         fetchLocations: seq<string> -> Result<seq<Location>, string>,
                         assignable: (string, string) -> Result<Option<seq<Assignee>>, string>)
      modifies this
      ensures selectedGroups == groupIds && selectedLocations == [] && selectedAssignees == []
      ensures assignees == []
      ensures locations == NextLocations(groups, groupIds, fetchLocations, old(locations))
      ensures groupIds == [] ==> locations == []
      ensures groups == old(groups) && loading == old(loading)
    {
      HandleGroupsChange(groupIds);
      LoadLocations(fetchLocations);
      LoadAssignees(assignable);
      NoGroupsNoLocations(groups, fetchLocations, old(locations));
      NoLocationNoAssignees(selectedGroups, assignable, old(assignees));
    }

    /** A new location selection followed by the assignees effect (the
        locations effect does not depend on it): no assignee is selected,
        and the assignee options are the answer for the first selected group
        and the first of the new locations. */
    method LocationsChanged(locationIds: seq<string>,
                            assignable: (string, string) -> Result<Option<seq<Assignee>>, string>)
      modifies this
      ensures selectedLocations == locationIds && selectedAssignees == []
      ensures selectedGroups == old(selectedGroups)
      ensures assignees == NextAssignees(old(selectedGroups), locationIds, assignable, old(assignees))
      ensures groups == old(groups) && locations == old(locations) && loading == old(loading)
    {
      HandleLocationsChange(locationIds);
      LoadAssignees(assignable);
    }
  }

  // ---------------------------------------------------------------------
  // Lemmas

  /** A location id is requested exactly when some loaded, selected group
      has it. */
  lemma {:induction false} LocationRequestIdsSpec(groups: seq<Group>, selected: seq<string>, x: string)
    ensures x in LocationRequestIds(groups, selected) <==>
      exists k :: 0 <= k < |groups| && groups[k].id in selected && groups[k].locationId == x
  {
    if |groups| > 0 {
      LocationRequestIdsSpec(groups[1..], selected, x);
      var rest := LocationRequestIds(groups[1..], selected);
      if x in rest {
        var k :| 0 <= k < |groups[1..]| && groups[1..][k].id in selected && groups[1..][k].locationId == x;
        assert groups[k + 1] == groups[1..][k];
      }
      if exists k :: 0 <= k < |groups| && groups[k].id in selected && groups[k].locationId == x {
        var k :| 0 <= k < |groups| && groups[k].id in selected && groups[k].locationId == x;
        if k > 0 {
          assert groups[1..][k - 1] == groups[k];
        }
      }
    }
  }

  /** Selecting no group requests no location, and selecting every loaded
      group requests every group's location, one per group, in order. */
  lemma {:induction false} LocationRequestIdsExtremes(groups: seq<Group>)
    ensures LocationRequestIds(groups, []) == []
    ensures LocationRequestIds(groups, seq(|groups|, k requires 0 <= k < |groups| => groups[k].id)) ==
      seq(|groups|, k requires 0 <= k < |groups| => groups[k].locationId)
  {
    var all := seq(|groups|, k requires 0 <= k < |groups| => groups[k].id);
    assert forall k :: 0 <= k < |groups| ==> all[k] == groups[k].id && all[k] in all;
    AllSelected(groups, all);
    NoneSelected(groups);
  }

  lemma {:induction false} NoneSelected(groups: seq<Group>)
    ensures LocationRequestIds(groups, []) == []
  {
    if |groups| > 0 {
      NoneSelected(groups[1..]);
    }
  }

  lemma {:induction false} AllSelected(groups: seq<Group>, selected: seq<string>)
    requires forall k :: 0 <= k < |groups| ==> groups[k].id in selected
    ensures LocationRequestIds(groups, selected) == seq(|groups|, k requires 0 <= k < |groups| => groups[k].locationId)
  {
    if |groups| > 0 {
      AllSelected(groups[1..], selected);
    }
  }

  /** With no group selected, the location options end up empty whatever
      the backend would answer. */
  lemma NoGroupsNoLocations(groups: seq<Group>, fetchLocations: seq<string> -> Result<seq<Location>, string>, current: seq<Location>)
    ensures NextLocations(groups, [], fetchLocations, current) == []
  {
  }

  /** With no location selected, or no group, the assignee options end up
      empty whatever the backend would answer; otherwise only the first
      selected group and location reach the backend. */
  lemma NoLocationNoAssignees(selectedGroups: seq<string>,
                              assignable: (string, string) -> Result<Option<seq<Assignee>>, string>,
                              current: seq<Assignee>)
    ensures NextAssignees(selectedGroups, [], assignable, current) == []
    ensures NextAssignees([], selectedGroups, assignable, current) == []
  {
  }

  /** Only the first selected group and the first selected location matter:
      selections that agree on their heads load the same assignees. */
  lemma AssigneesDependOnHeads(g1: seq<string>, l1: seq<string>, g2: seq<string>, l2: seq<string>,
                               assignable: (string, string) -> Result<Option<seq<Assignee>>, string>,
                               current: seq<Assignee>)
    requires |g1| > 0 && |l1| > 0 && |g2| > 0 && |l2| > 0
    requires g1[0] == g2[0] && l1[0] == l2[0]
    ensures NextAssignees(g1, l1, assignable, current) == NextAssignees(g2, l2, assignable, current)
  {
  }
}
