/** What the assistant may be asked for (crates/mw-assist/src/lib.rs). */
module AssistCapability {

  datatype Capability = Summarize | Draft | Grammar | Dictation | SearchSemantic | AutoTag | Recap | Assistant
}
