/** The plain data holders of service/result: Result and ValidationResult. */
module Results {
  import opened Outcomes

  /** Result.State */
  datatype State = SUCCESS | FAILURE

  /** Result: a state and an optional message. */
  datatype Result = Result(state: State, message: Option<string>)

  /**
   * The message a violated constraint carries. The validator's interpolated
   * text is not modelled; each constraint kind stands for its own message.
   */
  datatype Message = NotNullMessage | PatternMessage

  /** ValidationResult: the name of the offending field and its message. */
  datatype ValidationResult = ValidationResult(fieldName: string, message: Message)
}
