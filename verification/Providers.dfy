/** The model providers the router and the verification mesh choose from. */
module Providers {

  datatype Provider =
    | OpencodeGo | AnthropicApi | GeminiApi | DeepseekV4 | Deepseek | Tavily | Gemini
    | MoonshotK25 | MoonshotK26 | XiaomiMimo | CarniceLocal | Qwen35Plus | Qwen36Plus
    | MinimaxM25 | MinimaxM27 | GlmDeepinfra | GlmFireworks | GlmZai | Groq | KiroAi
    | Mistral | Openai | ClaudeCodeCli | CodexCli | GeminiCli
}
