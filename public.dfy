/**
 * The application-facing objects that the view and backing layers refer to
 * (src/public/Form.ts, src/public/Block.ts and the event types of
 * src/control/events/EventType.ts, none of which is part of this model):
 * only their identity and the parts the core reads or writes.
 */
module Public {

  /** An application form: its identity and the names of its blocks. */
  class Form {
    var blocks: set<string>

    constructor (blocks: set<string>)
      ensures this.blocks == blocks
    {
      this.blocks := blocks;
    }
  }

  /** An application block: its name and the form that owns it. */
  datatype Block = Block(name: string, form: Form)

  /** The lifecycle events the core raises or filters on. */
  datatype EventType =
    | PreForm | PostForm
    | PreBlock | PostBlock
    | PreRecord | PostRecord
    | PostViewInit
    | OtherEvent
}
