/** The persisted rows and the token claims the handlers work on. */
module Models {

  import opened Base

  /** A row of the `users` table. */
  datatype User = User(
    id: Uuid,
    username: string,
    email: string,
    passwordHash: string,
    createdAt: Time,
    updatedAt: Time)

  /** A row of the `manim_projects` table. `videoUrl` is a nullable column:
      `None` is SQL NULL. */
  datatype Project = Project(
    id: Uuid,
    userId: Uuid,
    name: string,
    description: string,
    prompt: string,
    renderStatus: string,
    videoUrl: Option<string>,
    createdAt: Time,
    updatedAt: Time)

  /** The payload of a signed bearer token. `subject` is the user id the token's
      `sub` claim names (its textual form is not modelled). */
  datatype Claims = Claims(
    userId: Uuid,
    email: string,
    username: string,
    subject: Uuid,
    issuer: string,
    issuedAt: Time,
    expiresAt: Time)

  /** The client-facing view of a project: a NULL URL is shown as `""`; the
      timestamps are passed through (their HTTP date formatting is not modelled). */
  datatype ProjectResponse = ProjectResponse(
    id: Uuid,
    userId: Uuid,
    name: string,
    description: string,
    prompt: string,
    renderStatus: string,
    videoUrl: string,
    createdAt: Time,
    updatedAt: Time)
}
