/** The REST group controller's decision logic. Each handler receives the group
    document the database returned for the requested id (`null` when there is
    none) and the authenticated caller, checks in the controller's order
    (404, then 403, then 400) and changes the member lists in place. */
module GroupController {
  import opened Common
  import opened GroupModel

  const GroupNotFound := HttpReply(404, "Group not found")

  /** `description || ''` */
  function DescriptionOrEmpty(description: Option<string>): (d: string)
    ensures description.Some? ==> d == description.value
    ensures description.None? ==> d == ""
  {
    if description.Some? then description.value else ""
  }

  /** Creates and saves a group owned by the caller. A missing or empty name
      fails the schema's `required` rule and the save, which the controller
      reports as a server error. */
  method CreateGroup(userId: UserId, name: string, description: Option<string>, newId: GroupId)
    returns (reply: HttpReply, group: Group?)
    ensures name == "" ==> reply == HttpReply(500, "Server error creating group") && group == null
    ensures name != "" ==> reply == HttpReply(201, "Group created successfully") && group != null && fresh(group)
    ensures group != null ==>
      && group.id == newId && group.name == name && group.createdBy == userId
      && group.description == DescriptionOrEmpty(description)
      && group.members == [userId] && group.admins == [userId] && group.messages == []
      && !group.isNew
    ensures group != null ==> group.AdminsAreMembers()
  {
    if name == "" {
      return HttpReply(500, "Server error creating group"), null;
    }
    group := new Group(newId, name, DescriptionOrEmpty(description), userId);
    group.Save();
    reply := HttpReply(201, "Group created successfully");
  }

  /** 404 for a missing group, then 403 for a caller who is not a member. */
  function GetGroup(group: Group?, userId: UserId): (r: HttpReply)
    reads group
    ensures r.code == 404 <==> group == null
    ensures r.code == 403 <==> group != null && userId !in group.members
    ensures r.code == 200 <==> group != null && userId in group.members
  {
    if group == null then GroupNotFound
    else if userId !in group.members then HttpReply(403, "You are not a member of this group")
    else HttpReply(200, "")
  }

  /** 404, then 400 for an existing member; otherwise the caller is appended
      to the members only (not to the admins). */
  method JoinGroup(group: Group?, userId: UserId) returns (reply: HttpReply)
    modifies group
    ensures group != null ==> unchanged(group`name, group`description, group`admins, group`messages, group`isNew)
    ensures group == null ==> reply == GroupNotFound
    ensures group != null && userId in old(group.members) ==>
      reply == HttpReply(400, "You are already a member of this group") && group.members == old(group.members)
    ensures group != null && userId !in old(group.members) ==>
      reply == HttpReply(200, "Successfully joined group") && group.members == old(group.members) + [userId]
    ensures group != null && old(group.AdminsAreMembers()) ==> group.AdminsAreMembers()
  {
    if group == null {
      return GroupNotFound;
    }
    if userId in group.members {
      return HttpReply(400, "You are already a member of this group");
    }
    group.members := group.members + [userId];
    reply := HttpReply(200, "Successfully joined group");
  }

  /** 404, then 400 for a non-member; otherwise the caller is filtered out of
      both members and admins, every other entry kept in order. */
  method LeaveGroup(group: Group?, userId: UserId) returns (reply: HttpReply)
    modifies group
    ensures group != null ==> unchanged(group`name, group`description, group`messages, group`isNew)
    ensures group == null ==> reply == GroupNotFound
    ensures group != null && userId !in old(group.members) ==>
      reply == HttpReply(400, "You are not a member of this group")
      && group.members == old(group.members) && group.admins == old(group.admins)
    ensures group != null && userId in old(group.members) ==>
      reply == HttpReply(200, "Successfully left group")
      && group.members == Without(old(group.members), userId)
      && group.admins == Without(old(group.admins), userId)
    ensures group != null && old(group.AdminsAreMembers()) ==> group.AdminsAreMembers()
  {
    if group == null {
      return GroupNotFound;
    }
    if userId !in group.members {
      return HttpReply(400, "You are not a member of this group");
    }
    WithoutKeepsAdminsAmongMembers(group.members, group.admins, userId);
    group.members := Without(group.members, userId);
    group.admins := Without(group.admins, userId);
    reply := HttpReply(200, "Successfully left group");
  }

  /** 404, then 403 unless the caller is an admin (checked before the
      already-member check), then 400 for an existing member; otherwise the new
      id is appended to the members only. */
  method AddMember(group: Group?, userId: UserId, newMemberId: UserId) returns (reply: HttpReply)
    modifies group
    ensures group != null ==> unchanged(group`name, group`description, group`admins, group`messages, group`isNew)
    ensures group == null ==> reply == GroupNotFound
    ensures group != null && userId !in old(group.admins) ==>
      reply == HttpReply(403, "Only admins can add members") && group.members == old(group.members)
    ensures group != null && userId in old(group.admins) && newMemberId in old(group.members) ==>
      reply == HttpReply(400, "User is already a member") && group.members == old(group.members)
    ensures group != null && userId in old(group.admins) && newMemberId !in old(group.members) ==>
      reply == HttpReply(200, "Member added successfully") && group.members == old(group.members) + [newMemberId]
    ensures group != null && old(group.AdminsAreMembers()) ==> group.AdminsAreMembers()
  {
    if group == null {
      return GroupNotFound;
    }
    if userId !in group.admins {
      return HttpReply(403, "Only admins can add members");
    }
    if newMemberId in group.members {
      return HttpReply(400, "User is already a member");
    }
    group.members := group.members + [newMemberId];
    reply := HttpReply(200, "Member added successfully");
  }

  /** 404, then 403 unless the caller is an admin, then 400 when the target is
      the caller; otherwise the target is filtered out of members and admins,
      which is a successful no-op for an id that is not a member. */
  method RemoveMember(group: Group?, userId: UserId, memberId: UserId) returns (reply: HttpReply)
    modifies group
    ensures group != null ==> unchanged(group`name, group`description, group`messages, group`isNew)
    ensures group == null ==> reply == GroupNotFound
    ensures group != null && userId !in old(group.admins) ==>
      reply == HttpReply(403, "Only admins can remove members")
      && group.members == old(group.members) && group.admins == old(group.admins)
    ensures group != null && userId in old(group.admins) && memberId == userId ==>
      reply == HttpReply(400, "Cannot remove yourself from group")
      && group.members == old(group.members) && group.admins == old(group.admins)
    ensures group != null && userId in old(group.admins) && memberId != userId ==>
      reply == HttpReply(200, "Member removed successfully")
      && group.members == Without(old(group.members), memberId)
      && group.admins == Without(old(group.admins), memberId)
    ensures group != null && old(group.AdminsAreMembers()) ==> group.AdminsAreMembers()
  {
    if group == null {
      return GroupNotFound;
    }
    if userId !in group.admins {
      return HttpReply(403, "Only admins can remove members");
    }
    if memberId == userId {
      return HttpReply(400, "Cannot remove yourself from group");
    }
    WithoutKeepsAdminsAmongMembers(group.members, group.admins, memberId);
    group.members := Without(group.members, memberId);
    group.admins := Without(group.admins, memberId);
    reply := HttpReply(200, "Member removed successfully");
  }

  /** Removing someone who is not a member leaves both lists as they were. */
  lemma RemoveNonMemberIsNoOp(members: seq<UserId>, admins: seq<UserId>, memberId: UserId)
    requires memberId !in members && memberId !in admins
    ensures Without(members, memberId) == members && Without(admins, memberId) == admins
  {
    WithoutAbsent(members, memberId);
    WithoutAbsent(admins, memberId);
  }

  /** Leaving or being removed takes the id out of both lists and keeps
      everyone else. */
  lemma FilteredOutOfBoth(members: seq<UserId>, admins: seq<UserId>, gone: UserId, other: UserId)
    requires other != gone
    ensures gone !in Without(members, gone) && gone !in Without(admins, gone)
    ensures other in Without(members, gone) <==> other in members
    ensures other in Without(admins, gone) <==> other in admins
  {
    WithoutMembership(members, gone, other);
    WithoutMembership(admins, gone, other);
  }

  /** Filtering one id out of both lists keeps every remaining admin a
      member. */
  lemma WithoutKeepsAdminsAmongMembers(members: seq<UserId>, admins: seq<UserId>, gone: UserId)
    ensures (forall a :: a in admins ==> a in members) ==>
      forall a :: a in Without(admins, gone) ==> a in Without(members, gone)
  {
    forall a | a in Without(admins, gone) && (forall b :: b in admins ==> b in members)
      ensures a in Without(members, gone)
    {
      WithoutMembership(admins, gone, a);
      WithoutMembership(members, gone, a);
    }
  }

  /** 404, then 403 unless the caller is an admin; then `name` is replaced only
      by a non-empty value and `description` by any value that was sent,
      the empty string included. */
  method UpdateGroup(group: Group?, userId: UserId, name: Option<string>, description: Option<string>)
    returns (reply: HttpReply)
    modifies group
    ensures group != null ==> unchanged(group`members, group`admins, group`messages, group`isNew)
    ensures group == null ==> reply == GroupNotFound
    ensures group != null && userId !in old(group.admins) ==>
      reply == HttpReply(403, "Only admins can update group")
      && group.name == old(group.name) && group.description == old(group.description)
    ensures group != null && userId in old(group.admins) ==>
      && reply == HttpReply(200, "Group updated successfully")
      && group.name == (if name.Some? && name.value != "" then name.value else old(group.name))
      && group.description == (if description.Some? then description.value else old(group.description))
    ensures group != null && old(group.AdminsAreMembers()) ==> group.AdminsAreMembers()
  {
    if group == null {
      return GroupNotFound;
    }
    if userId !in group.admins {
      return HttpReply(403, "Only admins can update group");
    }
    if name.Some? && name.value != "" {
      group.name := name.value;
    }
    if description.Some? {
      group.description := description.value;
    }
    reply := HttpReply(200, "Group updated successfully");
  }
}
