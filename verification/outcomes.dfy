/**
 The outcome vocabulary shared by every route of the survey application:
 an optional value, the error each route can report, and a result that is
 either a value or one of those errors.
 */
module Outcomes {

  /** A value that may be absent (a nullable column, a missing form field). */
  datatype Option<+T> = None | Some(value: T)

  /** The outcomes a route reports instead of doing its work. The comment on
      each constructor gives the message the application shows for it. */
  datatype Error =
      /** `login_required` rejected an anonymous caller: redirect to the login page. */
    | LoginRequired
      /** "Title is required" */
    | TitleRequired
      /** "At least 2 options are required" */
    | TooFewOptions
      /** "Survey not found": an absent survey and a survey of another owner alike. */
    | SurveyNotFound
      /** "Survey not found or inactive", with status 404: absent and inactive alike. */
    | NotFoundOrInactive
      /** "Please select an option" */
    | NoOptionSelected
      /** "Email and password are required" */
    | CredentialsRequired
      /** "Email already registered" */
    | EmailTaken
      /** "Invalid email or password": unknown email and wrong password alike. */
    | InvalidCredentials

  datatype Result<+T> = Ok(value: T) | Err(error: Error)
}
