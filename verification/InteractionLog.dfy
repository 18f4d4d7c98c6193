/** The append-only table of user interactions that the recorder and the affinity service
    write and the recommendation tasks read. */
module InteractionLog {
  import opened Wrappers

  datatype ActionType =
    | View
    | Search
    | StoreClick
    | SavedAdd
    | SavedRemove
    | Like
    | Neutral
    | Dislike
    | PreferenceSet

  /** One row. `weight` is in units of 0.0001 and `at` is the creation time. */
  datatype LogRow = LogRow(
    user: int,
    game: Option<int>,
    action: ActionType,
    source: string,
    store: Option<int>,
    query: Option<string>,
    weight: Option<int>,
    at: int)
}
