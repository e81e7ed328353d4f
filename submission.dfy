/** The form component's state and its two event handlers, `handleChange` and
    `handleSubmit` (src/Components/SignupForm.js:7-21, 39-45, 81-95). The
    HTTP post is not performed: its outcome is a parameter. */
module Submission {
  import opened FormState
  import opened Validator

  datatype Option<T> = None | Some(value: T)

  /** How the `axios.post` to the signup endpoint ends: it resolves with a
      response whose `data.userId` is rendered into the route, or it rejects. */
  datatype PostOutcome = Succeeded(userId: string) | Failed

  /** The route navigated to after a successful signup. */
  function UserInfoPath(userId: string): string {
    "/user-info/" + userId
  }

  /** Different account identifiers lead to different routes. */
  lemma UserInfoPathInjective(a: string, b: string)
    requires UserInfoPath(a) == UserInfoPath(b)
    ensures a == b
  {
    var prefix := "/user-info/";
    assert a == UserInfoPath(a)[|prefix|..];
    assert b == UserInfoPath(b)[|prefix|..];
  }

  class SignupForm {
    /** `user`, as held by `useState` */
    var user: User
    /** `errors`, as held by `useState`: the messages shown under the inputs */
    var errors: Errors
    /** the route `navigate` was last called with, if any */
    var navigatedTo: Option<string>
    /** the bodies posted to the signup endpoint, oldest first */
    var posts: seq<User>

    /** The component as first rendered. */
    constructor ()
      ensures user == InitialUser && errors == map[]
      ensures navigatedTo == None && posts == []
    {
      user := InitialUser;
      errors := map[];
      navigatedTo := None;
      posts := [];
    }

    /** `handleChange(event)`: replaces the record by the updated copy. */
    method HandleChange(e: Event)
      modifies this`user
      ensures user == ApplyChange(old(user), e)
      ensures Get(user, e.name) == EventValue(e)
      ensures forall g | g != e.name :: Get(user, g) == Get(old(user), g)
    {
      user := ApplyChange(user, e);
    }

    /** `handleSubmit(event)`: the displayed errors are replaced by the fresh
        validation result; the record is posted only when that result has no
        keys; a successful post navigates to the new account's route, a
        failed one is only logged. */
    method HandleSubmit(outcome: PostOutcome)
      modifies this`errors, this`posts, this`navigatedTo
      ensures user == old(user)
      ensures errors == Validation(user)
      ensures posts == if |errors| == 0 then old(posts) + [user] else old(posts)
      ensures navigatedTo ==
        if |errors| == 0 && outcome.Succeeded? then Some(UserInfoPath(outcome.userId))
        else old(navigatedTo)
    {
      var validationErrors := Validate(user);
      errors := validationErrors;
      if |validationErrors| == 0 {
        posts := posts + [user];
        match outcome {
          case Succeeded(userId) =>
            navigatedTo := Some(UserInfoPath(userId));
          case Failed =>
        }
      }
    }
  }
}
