/** The admin course slice of the client store: the `getCourses` normaliser and the reducer,
    whose state is a class and whose `addCase` handlers are its methods. */
module CourseSlice {

  import opened Js
  import Lists
  import Text

  /** The `getCourses` normaliser: the body when it is an array, else its `courses` property
      when that is an array, else an empty array. */
  function NormalizeCourses(data: Value): (r: Value)
    ensures r.Arr?
    ensures data.Arr? ==> r == data
    ensures !data.Arr? && Prop(data, "courses").Arr? ==> r == Prop(data, "courses")
    ensures !data.Arr? && !Prop(data, "courses").Arr? ==> r.items == []
  {
    if data.Arr? then data
    else if Prop(data, "courses").Arr? then Prop(data, "courses")
    else Arr([])
  }

  /** A dispatched action: its `type`, its `payload` and `error.message`. */
  datatype Action = Action(kind: string, payload: Value, errorMessage: Wrappers.Option<string>)

  /** The slice state `{courses, course, loading, error}`. */
  class CourseStore {
    var courses: seq<Value>
    var course: Value
    var loading: bool
    var error: Wrappers.Option<string>

    /** `initialState`. */
    constructor ()
      ensures courses == [] && course == Null && !loading && error == Wrappers.None
    {
      courses, course, loading, error := [], Null, false, Wrappers.None;
    }

    /** `createCourse.pending` and `getCourses.pending`. */
    method Pending()
      modifies this
      ensures loading && courses == old(courses) && course == old(course) && error == old(error)
    {
      loading := true;
    }

    /** `createCourse.fulfilled`: a truthy payload, the whole response body, is appended. */
    method CreateFulfilled(payload: Value)
      modifies this
      ensures !loading && course == old(course) && error == old(error)
      ensures courses == if Truthy(payload) then old(courses) + [payload] else old(courses)
    {
      loading := false;
      if Truthy(payload) {
        courses := courses + [payload];
      }
    }

    /** `getCourseById.fulfilled`: a truthy payload becomes the current course. */
    method GetByIdFulfilled(payload: Value)
      modifies this
      ensures !loading && courses == old(courses) && error == old(error)
      ensures course == if Truthy(payload) then payload else old(course)
    {
      loading := false;
      if Truthy(payload) {
        course := payload;
      }
    }

    /** `getCourses.fulfilled`: the list becomes the payload if it is an array, else empty. */
    method GetFulfilled(payload: Value)
      modifies this
      ensures !loading && course == old(course) && error == old(error)
      ensures courses == if payload.Arr? then payload.items else []
    {
      loading := false;
      courses := if payload.Arr? then payload.items else [];
    }

    /** `updateCourse.fulfilled`: the first course with the payload's `_id` is replaced; with
        none the list is unchanged. With a `null` payload the `findIndex` callback's read of
        `_id` throws when the list is non-empty and never runs when it is empty; either way
        the state stays as it was. */
    method UpdateFulfilled(payload: Value)
      modifies this
      ensures loading == old(loading) && course == old(course) && error == old(error)
      ensures courses == if Nullish(payload) then old(courses) else Lists.ReplaceFirst(old(courses), IdOf, payload)
    {
      if Nullish(payload) {
        return;
      }
      var index := Lists.FindIndex(courses, IdOf, IdOf(payload));
      if index != -1 {
        courses := courses[index := payload];
      }
    }

    /** `deleteCourse.fulfilled`: every course whose `_id` is the payload is dropped. */
    method DeleteFulfilled(id: Value)
      modifies this
      ensures loading == old(loading) && course == old(course) && error == old(error)
      ensures courses == Lists.RemoveKey(old(courses), IdOf, id)
    {
      courses := Lists.RemoveKey(courses, IdOf, id);
    }

    /** The `/rejected` matcher. */
    method Rejected(message: Wrappers.Option<string>)
      modifies this
      ensures !loading && error == message && courses == old(courses) && course == old(course)
    {
      loading := false;
      error := message;
    }

    /** The slice reducer: the case for the action's type, or for any type ending in
        `/rejected` (from this slice or any other) the error matcher; other actions are ignored. */
    method Dispatch(action: Action)
      modifies this
      ensures action.kind == "course/create/pending" || action.kind == "course/getCourses/pending" ==>
                loading && courses == old(courses) && course == old(course) && error == old(error)
      ensures action.kind == "course/create/fulfilled" ==>
                !loading && course == old(course) && error == old(error)
                && courses == if Truthy(action.payload) then old(courses) + [action.payload] else old(courses)
      ensures action.kind == "course/getCourseById/fulfilled" ==>
                !loading && courses == old(courses) && error == old(error)
                && course == if Truthy(action.payload) then action.payload else old(course)
      ensures action.kind == "course/getCourses/fulfilled" ==>
                !loading && course == old(course) && error == old(error)
                && courses == if action.payload.Arr? then action.payload.items else []
      ensures action.kind == "course/update/fulfilled" ==>
                loading == old(loading) && course == old(course) && error == old(error)
                && courses == if Nullish(action.payload) then old(courses)
                              else Lists.ReplaceFirst(old(courses), IdOf, action.payload)
      ensures action.kind == "course/delete/fulfilled" ==>
                loading == old(loading) && course == old(course) && error == old(error)
                && courses == Lists.RemoveKey(old(courses), IdOf, action.payload)
      ensures Text.EndsWith(action.kind, "/rejected") ==>
                !loading && error == action.errorMessage && courses == old(courses) && course == old(course)
      ensures action.kind !in CaseTypes && !Text.EndsWith(action.kind, "/rejected") ==>
                courses == old(courses) && course == old(course) && loading == old(loading) && error == old(error)
    {
      var kind := action.kind;
      if kind == "course/create/pending" || kind == "course/getCourses/pending" {
        Pending();
      } else if kind == "course/create/fulfilled" {
        CreateFulfilled(action.payload);
      } else if kind == "course/getCourseById/fulfilled" {
        GetByIdFulfilled(action.payload);
      } else if kind == "course/getCourses/fulfilled" {
        GetFulfilled(action.payload);
      } else if kind == "course/update/fulfilled" {
        UpdateFulfilled(action.payload);
      } else if kind == "course/delete/fulfilled" {
        DeleteFulfilled(action.payload);
      } else if Text.EndsWith(kind, "/rejected") {
        Rejected(action.errorMessage);
      }
    }
  }

  /** The action types the slice has a case for. */
  const CaseTypes: set<string> := {
    "course/create/pending", "course/create/fulfilled", "course/getCourseById/fulfilled",
    "course/getCourses/pending", "course/getCourses/fulfilled", "course/update/fulfilled",
    "course/delete/fulfilled"
  }

  /** Unlike the blog slice, an update for a course that is not in the list adds nothing,
      and an update for one that is keeps the length. */
  lemma UpdateNeverGrows(courses: seq<Value>, payload: Value)
    ensures |Lists.ReplaceFirst(courses, IdOf, payload)| == |courses|
    ensures (forall j | 0 <= j < |courses| :: IdOf(courses[j]) != IdOf(payload)) ==>
              Lists.ReplaceFirst(courses, IdOf, payload) == courses
  {
  }
}
