/**
 * The SQLite database as one object with a sequence of rows per table. Services
 * receive it where the source receives a session; the tables they change are
 * named in their `modifies` clauses.
 */
module Store {
  import opened Models
  import opened Tables

  class Database {
    var members: seq<Member>
    var nameHistory: seq<NameHistory>
    var periods: seq<MembershipPeriod>
    var activities: seq<Activity>
    var locations: seq<Location>
    var activityLocations: seq<ActivityLocation>
    var roles: seq<Role>
    var mediaTypes: seq<MediaType>
    var mediaItems: seq<MediaItem>
    var appearances: seq<MediaAppearance>
    var mentions: seq<MediaMention>
    var mentionMembers: seq<MentionMember>
    var mentionActivities: seq<MentionActivity>
    var mentionMediaItems: seq<MentionMediaItem>

    /**
     * The primary-key constraints of the schema, including the composite keys of
     * `activity_location` and the three mention-link tables. Foreign keys are
     * declared but SQLite does not enforce them unless asked to, so they are not
     * part of the invariant.
     */
    ghost predicate Valid()
      reads this
    {
      Unique(members, MemberKey)
      && Unique(nameHistory, NameHistoryKey)
      && Unique(periods, PeriodKey)
      && Unique(activities, ActivityKey)
      && Unique(locations, LocationKey)
      && Unique(activityLocations, ActivityLocationKey)
      && Unique(roles, RoleKey)
      && Unique(mediaTypes, MediaTypeKey)
      && Unique(mediaItems, MediaItemKey)
      && Unique(appearances, AppearanceKey)
      && Unique(mentions, MentionKey)
      && Unique(mentionMembers, MentionMemberKey)
      && Unique(mentionActivities, MentionActivityKey)
      && Unique(mentionMediaItems, MentionMediaItemKey)
    }

    /** A freshly created database: every table empty. */
    constructor ()
      ensures Valid()
      ensures members == [] && nameHistory == [] && periods == [] && activities == []
      ensures locations == [] && activityLocations == [] && roles == [] && mediaTypes == []
      ensures mediaItems == [] && appearances == [] && mentions == []
      ensures mentionMembers == [] && mentionActivities == [] && mentionMediaItems == []
    {
      members := [];
      nameHistory := [];
      periods := [];
      activities := [];
      locations := [];
      activityLocations := [];
      roles := [];
      mediaTypes := [];
      mediaItems := [];
      appearances := [];
      mentions := [];
      mentionMembers := [];
      mentionActivities := [];
      mentionMediaItems := [];
    }
  }
}
