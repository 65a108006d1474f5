/** The `Comment` model: a comment on a blog and the schema's constraints. */
module CommentModel {
  import opened Wrappers
  import opened Text

  datatype Comment = Comment(id: Id, blogId: Id, userId: Id, content: string, createdAt: int)

  const MaxContentLength: nat := 1000

  /** The schema: `blogId`, `userId` and `content` are required, and content is at most 1000 UTF-16 units long. */
  predicate CommentConforms(blogId: Option<Id>, userId: Option<Id>, content: string) {
    blogId.Some? && userId.Some? && content != "" && Utf16Length(content) <= MaxContentLength
  }
}
